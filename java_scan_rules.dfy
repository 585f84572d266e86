/** What the Java generation's CheckScanner computes, as functions of a board value: where the
    king of a colour stands, which enemy pieces each attack scan finds on a square, and what
    setCheckingPiece records of them.  Each scan is tied to a reference definition of the attack
    it looks for; the double-check bookkeeping is the subject of a finding at the end. */
module JavaScanRules {
  import opened JavaMoves
  import opened JavaRules

  // ---------------------------------------------------------------------------------------------
  // The checking piece

  /** A square where a scan found an attacker, with the kind setCheckingPiece is given (ROOK for
      a rook or queen on a line, BISHOP on a diagonal, KNIGHT, PAWN). */
  datatype Hit = Hit(col: int, row: int, val: int)

  /** The scanner's checkingPieceCol, checkingPieceRow, checkingPieceVal and isDoubleCheck. */
  datatype Checking = Checking(col: int, row: int, val: int, double: bool)

  /** The values update() leaves: no checking piece, no double check. */
  function Reset(): Checking {
    Checking(-1, -1, -1, false)
  }

  /** setCheckingPiece: the first attacker is recorded; any later one marks a double check. */
  function SetChecking(c: Checking, h: Hit): Checking {
    if c.val != -1 then c.(double := true) else Checking(h.col, h.row, h.val, c.double)
  }

  /** setCheckingPiece for each hit in order. */
  function RecordAll(c: Checking, hits: seq<Hit>): Checking
    decreases |hits|
  {
    if |hits| == 0 then c else RecordAll(SetChecking(c, hits[0]), hits[1..])
  }

  /** The hits of a scan that stops at its first. */
  function OptSeq(o: Option<Hit>): seq<Hit> {
    if o.Some? then [o.value] else []
  }

  /** `x || y` on two scans: the second runs only when the first found nothing. */
  function FirstOf(x: Option<Hit>, y: Option<Hit>): Option<Hit> {
    if x.Some? then x else y
  }

  lemma {:induction false} RecordAllAppend(c: Checking, s: seq<Hit>, t: seq<Hit>)
    ensures RecordAll(c, s + t) == RecordAll(RecordAll(c, s), t)
    decreases |s|
  {
    if |s| > 0 {
      assert (s + t)[0] == s[0];
      assert (s + t)[1..] == s[1..] + t;
      RecordAllAppend(SetChecking(c, s[0]), s[1..], t);
    } else {
      assert s + t == t;
    }
  }

  lemma {:induction false} RecordAllRecorded(c: Checking, hits: seq<Hit>)
    requires c.val != -1
    ensures RecordAll(c, hits) == c.(double := c.double || |hits| > 0)
    decreases |hits|
  {
    if |hits| > 0 {
      RecordAllRecorded(SetChecking(c, hits[0]), hits[1..]);
    }
  }

  /** From the state update() leaves, the scans record the first attacker they find, and
      isDoubleCheck holds exactly when they found two or more. */
  lemma RecordFromReset(hits: seq<Hit>)
    requires |hits| > 0 ==> hits[0].val != -1
    ensures var c := RecordAll(Reset(), hits);
      && (|hits| == 0 ==> c == Reset())
      && (|hits| > 0 ==> c.col == hits[0].col && c.row == hits[0].row && c.val == hits[0].val)
      && (c.double <==> |hits| >= 2)
  {
    if |hits| > 0 {
      RecordAllRecorded(SetChecking(Reset(), hits[0]), hits[1..]);
    }
  }

  // ---------------------------------------------------------------------------------------------
  // findKingCol, findKingRow

  /** The first flat index from k on (column by column, rows upward, as the two loops visit the
      squares) that holds the king of the colour, or -1. */
  function KingIndex(g: Grid, color: int, k: int): int
    requires 0 <= k <= 64
    decreases 64 - k
  {
    if k == 64 then -1 else if g[k] == KingCode * color then k else KingIndex(g, color, k + 1)
  }

  /** findKingCol. */
  function KingCol(g: Grid, color: int): int {
    var k := KingIndex(g, color, 0);
    if k == -1 then -1 else k / 8
  }

  /** findKingRow. */
  function KingRow(g: Grid, color: int): int {
    var k := KingIndex(g, color, 0);
    if k == -1 then -1 else k % 8
  }

  lemma {:induction false} KingIndexMeaning(g: Grid, color: int, k: int)
    requires 0 <= k <= 64
    ensures var i := KingIndex(g, color, k);
      && (i == -1 <==> forall j :: k <= j < 64 ==> g[j] != KingCode * color)
      && (i != -1 ==> k <= i < 64 && g[i] == KingCode * color
                      && forall j :: k <= j < i ==> g[j] != KingCode * color)
    decreases 64 - k
  {
    if k < 64 && g[k] != KingCode * color {
      KingIndexMeaning(g, color, k + 1);
    }
  }

  /** Both searches return -1 exactly when the colour has no king; otherwise they name a
      square holding it, and no square visited before holds it. */
  lemma KingSearchMeaning(g: Grid, color: int)
    ensures KingCol(g, color) == -1 <==> KingRow(g, color) == -1
    ensures KingCol(g, color) == -1 <==>
      forall c, r :: InRange(c) && InRange(r) ==> Cell(g, c, r) != KingCode * color
    ensures KingCol(g, color) != -1 ==>
      && InRange(KingCol(g, color)) && InRange(KingRow(g, color))
      && Cell(g, KingCol(g, color), KingRow(g, color)) == KingCode * color
      && forall c, r :: InRange(c) && InRange(r) && c * 8 + r < KingCol(g, color) * 8 + KingRow(g, color)
                        ==> Cell(g, c, r) != KingCode * color
  {
    KingIndexMeaning(g, color, 0);
    var i := KingIndex(g, color, 0);
    if i == -1 {
      forall c, r | InRange(c) && InRange(r)
        ensures Cell(g, c, r) != KingCode * color
      {
        assert 0 <= c * 8 + r < 64;
      }
    } else {
      assert i == (i / 8) * 8 + i % 8;
      assert KingRow(g, color) != -1;
      assert Cell(g, i / 8, i % 8) == g[i];
      var c0, r0 := i / 8, i % 8;
      forall c, r | InRange(c) && InRange(r) && c * 8 + r < c0 * 8 + r0
        ensures Cell(g, c, r) != KingCode * color
      {
        assert 0 <= c * 8 + r < i;
      }
    }
  }

  /** The new board's kings: White's on (4, 0), Black's on (4, 7). */
  lemma StartKings()
    ensures KingCol(StartGrid(), WhiteSign) == 4 && KingRow(StartGrid(), WhiteSign) == 0
    ensures KingCol(StartGrid(), BlackSign) == 4 && KingRow(StartGrid(), BlackSign) == 7
  {
    KingIndexMeaning(StartGrid(), WhiteSign, 0);
    KingIndexMeaning(StartGrid(), BlackSign, 0);
    var w := KingIndex(StartGrid(), WhiteSign, 0);
    var b := KingIndex(StartGrid(), BlackSign, 0);
    StartLayout(4, 0);
    StartLayout(4, 7);
    assert Cell(StartGrid(), 4, 0) == StartGrid()[32];
    assert Cell(StartGrid(), 4, 7) == StartGrid()[39];
  }

  // ---------------------------------------------------------------------------------------------
  // The sliding scans

  /** A step of one of the eight rays. */
  predicate Direction(dc: int, dr: int) {
    -1 <= dc <= 1 && -1 <= dr <= 1 && (dc != 0 || dr != 0)
  }

  /** One loop of a sliding scan, from its k-th square on: it stops off the board, finds an
      attacker when the square holds code a or code b, and stops at any other occupied square. */
  function RayFrom(g: Grid, col: int, row: int, dc: int, dr: int, a: int, b: int, val: int, k: nat): (h: Option<Hit>)
    requires InRange(col) && InRange(row) && Direction(dc, dr) && k >= 1
    ensures h.Some? ==> h.value.val == val
    decreases 8 - k
  {
    var c := Walk(col, dc, k);
    var r := Walk(row, dr, k);
    if !InRange(c) || !InRange(r) then None
    else if Cell(g, c, r) == a || Cell(g, c, r) == b then Some(Hit(c, r, val))
    else if Cell(g, c, r) != NoneCode then None
    else RayFrom(g, col, row, dc, dr, a, b, val, k + 1)
  }

  /** The loop of a sliding scan from its first square. */
  function Ray(g: Grid, col: int, row: int, dc: int, dr: int, a: int, b: int, val: int): Option<Hit>
    requires InRange(col) && InRange(row) && Direction(dc, dr)
  {
    RayFrom(g, col, row, dc, dr, a, b, val, 1)
  }

  /** The reference: the k-th square along the ray holds code a or b and every square before it
      is on the board and empty. */
  ghost predicate SliderAt(g: Grid, col: int, row: int, dc: int, dr: int, a: int, b: int, k: nat) {
    && k >= 1 && InRange(Walk(col, dc, k)) && InRange(Walk(row, dr, k))
    && (Cell(g, Walk(col, dc, k), Walk(row, dr, k)) == a || Cell(g, Walk(col, dc, k), Walk(row, dr, k)) == b)
    && LineClear(g, col, row, dc, dr, k)
  }

  ghost predicate AttackedAlong(g: Grid, col: int, row: int, dc: int, dr: int, a: int, b: int) {
    exists k: nat :: SliderAt(g, col, row, dc, dr, a, b, k)
  }

  lemma {:induction false} RayFromMeaning(g: Grid, col: int, row: int, dc: int, dr: int, a: int, b: int, val: int, k: nat)
    requires InRange(col) && InRange(row) && Direction(dc, dr) && k >= 1
    requires LineClear(g, col, row, dc, dr, k)
    ensures RayFrom(g, col, row, dc, dr, a, b, val, k).Some? <==>
      exists j: nat :: j >= k && SliderAt(g, col, row, dc, dr, a, b, j)
    ensures RayFrom(g, col, row, dc, dr, a, b, val, k).Some? ==>
      exists j: nat :: j >= k && SliderAt(g, col, row, dc, dr, a, b, j)
        && RayFrom(g, col, row, dc, dr, a, b, val, k).value == Hit(Walk(col, dc, j), Walk(row, dr, j), val)
    decreases 8 - k
  {
    var c := Walk(col, dc, k);
    var r := Walk(row, dr, k);
    if !InRange(c) || !InRange(r) {
    } else if Cell(g, c, r) == a || Cell(g, c, r) == b {
      assert SliderAt(g, col, row, dc, dr, a, b, k);
    } else if Cell(g, c, r) != NoneCode {
    } else {
      LineClearStep(g, col, row, dc, dr, k);
      RayFromMeaning(g, col, row, dc, dr, a, b, val, k + 1);
      assert !SliderAt(g, col, row, dc, dr, a, b, k);
      if exists j: nat :: j >= k && SliderAt(g, col, row, dc, dr, a, b, j) {
        var j: nat :| j >= k && SliderAt(g, col, row, dc, dr, a, b, j);
        assert j >= k + 1;
      }
    }
  }

  /** A sliding scan finds an attacker exactly when the reference says the ray holds one with
      nothing in between, and the square it records is that attacker's. */
  lemma RayMeaning(g: Grid, col: int, row: int, dc: int, dr: int, a: int, b: int, val: int)
    requires InRange(col) && InRange(row) && Direction(dc, dr)
    ensures Ray(g, col, row, dc, dr, a, b, val).Some? <==> AttackedAlong(g, col, row, dc, dr, a, b)
    ensures Ray(g, col, row, dc, dr, a, b, val).Some? ==>
      exists j: nat :: SliderAt(g, col, row, dc, dr, a, b, j)
        && Ray(g, col, row, dc, dr, a, b, val).value == Hit(Walk(col, dc, j), Walk(row, dr, j), val)
  {
    RayFromMeaning(g, col, row, dc, dr, a, b, val, 1);
    if AttackedAlong(g, col, row, dc, dr, a, b) {
      var j: nat :| SliderAt(g, col, row, dc, dr, a, b, j);
      assert j >= 1;
    }
  }

  /** The two codes the rook scans look for: an enemy rook or queen. */
  function RookLike(color: int): int { RookCode * color * -1 }
  function BishopLike(color: int): int { BishopCode * color * -1 }
  function QueenLike(color: int): int { QueenCode * color * -1 }

  /** isAttackedByRookCol: along the row, towards higher columns, then towards lower ones. */
  function RookColHit(g: Grid, col: int, row: int, color: int): Option<Hit>
    requires InRange(col) && InRange(row)
  {
    FirstOf(Ray(g, col, row, 1, 0, RookLike(color), QueenLike(color), RookCode),
            Ray(g, col, row, -1, 0, RookLike(color), QueenLike(color), RookCode))
  }

  /** isAttackedByRookRow: along the column, towards higher rows, then towards lower ones. */
  function RookRowHit(g: Grid, col: int, row: int, color: int): Option<Hit>
    requires InRange(col) && InRange(row)
  {
    FirstOf(Ray(g, col, row, 0, 1, RookLike(color), QueenLike(color), RookCode),
            Ray(g, col, row, 0, -1, RookLike(color), QueenLike(color), RookCode))
  }

  /** isAttackedByRook. */
  function RookHit(g: Grid, col: int, row: int, color: int): Option<Hit>
    requires InRange(col) && InRange(row)
  {
    FirstOf(RookColHit(g, col, row, color), RookRowHit(g, col, row, color))
  }

  /** isAttackedByBishopUp: up and to the right, then down and to the left. */
  function BishopUpHit(g: Grid, col: int, row: int, color: int): Option<Hit>
    requires InRange(col) && InRange(row)
  {
    FirstOf(Ray(g, col, row, 1, 1, BishopLike(color), QueenLike(color), BishopCode),
            Ray(g, col, row, -1, -1, BishopLike(color), QueenLike(color), BishopCode))
  }

  /** isAttackedByBishopDown: up and to the left, then down and to the right. */
  function BishopDownHit(g: Grid, col: int, row: int, color: int): Option<Hit>
    requires InRange(col) && InRange(row)
  {
    FirstOf(Ray(g, col, row, -1, 1, BishopLike(color), QueenLike(color), BishopCode),
            Ray(g, col, row, 1, -1, BishopLike(color), QueenLike(color), BishopCode))
  }

  /** isAttackedByBishop. */
  function BishopHit(g: Grid, col: int, row: int, color: int): Option<Hit>
    requires InRange(col) && InRange(row)
  {
    FirstOf(BishopUpHit(g, col, row, color), BishopDownHit(g, col, row, color))
  }

  // ---------------------------------------------------------------------------------------------
  // The knight scan

  /** The offset test of isAttackedByKnight. */
  predicate KnightOffset(dc: int, dr: int) {
    dc * dr == 2 || dc * dr == -2
  }

  /** isAttackedByKnight from (colDel, rowDel) on, in the order of its two loops; an offset off
      the board throws inside the try and is skipped. */
  function KnightScan(g: Grid, col: int, row: int, color: int, colDel: int, rowDel: int): (h: Option<Hit>)
    requires -2 <= colDel <= 3 && -2 <= rowDel <= 3
    ensures h.Some? ==> h.value.val == KnightCode
    decreases 3 - colDel, 3 - rowDel
  {
    if colDel > 2 then None
    else if rowDel > 2 then KnightScan(g, col, row, color, colDel + 1, -2)
    else if KnightOffset(colDel, rowDel) && InRange(col + colDel) && InRange(row + rowDel)
            && Cell(g, col + colDel, row + rowDel) == KnightCode * color * -1
    then Some(Hit(col + colDel, row + rowDel, KnightCode))
    else KnightScan(g, col, row, color, colDel, rowDel + 1)
  }

  function KnightHit(g: Grid, col: int, row: int, color: int): Option<Hit> {
    KnightScan(g, col, row, color, -2, -2)
  }

  /** The reference: an enemy knight a knight's jump away. */
  ghost predicate EnemyKnight(g: Grid, col: int, row: int, color: int, dc: int, dr: int) {
    && ((Abs(dc) == 1 && Abs(dr) == 2) || (Abs(dc) == 2 && Abs(dr) == 1))
    && InRange(col + dc) && InRange(row + dr) && Cell(g, col + dc, row + dr) == -KnightCode * color
  }

  ghost predicate KnightAttack(g: Grid, col: int, row: int, color: int) {
    exists dc, dr :: EnemyKnight(g, col, row, color, dc, dr)
  }

  /** Within -2..2 the product test picks out the eight knight offsets. */
  lemma KnightOffsetMeaning(dc: int, dr: int)
    requires -2 <= dc <= 2 && -2 <= dr <= 2
    ensures KnightOffset(dc, dr) <==> (Abs(dc) == 1 && Abs(dr) == 2) || (Abs(dc) == 2 && Abs(dr) == 1)
  {
    if dc == -2 || dc == -1 || dc == 0 || dc == 1 || dc == 2 {
      if dc == -2 { assert dc * dr == -2 * dr; }
      else if dc == -1 { assert dc * dr == -dr; }
      else if dc == 0 { assert dc * dr == 0; }
      else if dc == 1 { assert dc * dr == dr; }
      else { assert dc * dr == 2 * dr; }
    }
  }

  /** An offset the knight loops visit at or after (cd, rd). */
  predicate NotBefore(dc: int, dr: int, cd: int, rd: int) {
    dc > cd || (dc == cd && dr >= rd)
  }

  lemma {:induction false} KnightScanFrom(g: Grid, col: int, row: int, color: int, cd: int, rd: int)
    requires -2 <= cd <= 3 && -2 <= rd <= 3
    ensures KnightScan(g, col, row, color, cd, rd).Some? <==>
      exists dc, dr :: -2 <= dc <= 2 && -2 <= dr <= 2 && NotBefore(dc, dr, cd, rd) && EnemyKnight(g, col, row, color, dc, dr)
    ensures KnightScan(g, col, row, color, cd, rd).Some? ==>
      exists dc, dr :: EnemyKnight(g, col, row, color, dc, dr)
        && KnightScan(g, col, row, color, cd, rd).value == Hit(col + dc, row + dr, KnightCode)
    decreases 3 - cd, 3 - rd
  {
    if cd > 2 {
    } else if rd > 2 {
      KnightScanFrom(g, col, row, color, cd + 1, -2);
      forall dc, dr | -2 <= dc <= 2 && -2 <= dr <= 2
        ensures NotBefore(dc, dr, cd, rd) <==> NotBefore(dc, dr, cd + 1, -2)
      {
      }
    } else {
      KnightOffsetMeaning(cd, rd);
      if KnightOffset(cd, rd) && InRange(col + cd) && InRange(row + rd)
         && Cell(g, col + cd, row + rd) == KnightCode * color * -1 {
        assert EnemyKnight(g, col, row, color, cd, rd);
      } else {
        KnightScanFrom(g, col, row, color, cd, rd + 1);
        assert !EnemyKnight(g, col, row, color, cd, rd);
        forall dc, dr | -2 <= dc <= 2 && -2 <= dr <= 2 && (dc != cd || dr != rd)
          ensures NotBefore(dc, dr, cd, rd) <==> NotBefore(dc, dr, cd, rd + 1)
        {
        }
      }
    }
  }

  /** The knight scan finds an attacker exactly when an enemy knight stands a knight's jump
      away, and records that knight's square. */
  lemma KnightMeaning(g: Grid, col: int, row: int, color: int)
    ensures KnightHit(g, col, row, color).Some? <==> KnightAttack(g, col, row, color)
    ensures KnightHit(g, col, row, color).Some? ==>
      exists dc, dr :: EnemyKnight(g, col, row, color, dc, dr)
        && KnightHit(g, col, row, color).value == Hit(col + dc, row + dr, KnightCode)
  {
    KnightScanFrom(g, col, row, color, -2, -2);
    if KnightAttack(g, col, row, color) {
      var dc, dr :| EnemyKnight(g, col, row, color, dc, dr);
      assert -2 <= dc <= 2 && -2 <= dr <= 2 && NotBefore(dc, dr, -2, -2);
    }
  }

  // ---------------------------------------------------------------------------------------------
  // The pawn scan

  /** isAttackedByPawn: nothing when row + color is off the board; otherwise an enemy pawn on
      column col - 1, then one on col + 1, on that row (both are recorded). */
  function PawnHits(g: Grid, col: int, row: int, color: int): seq<Hit>
    requires InRange(col)
  {
    var r := row + color;
    if r < 0 || r > 7 then []
    else
      var minusCol := if col - 1 >= 0 && Cell(g, col - 1, r) == color * -PawnCode then [Hit(col - 1, r, PawnCode)] else [];
      var plusCol := if col + 1 <= 7 && Cell(g, col + 1, r) == color * -PawnCode then [Hit(col + 1, r, PawnCode)] else [];
      minusCol + plusCol
  }

  /** The reference: an enemy pawn on a neighbouring column, one row from the square towards the
      colour's own advance. */
  ghost predicate EnemyPawn(g: Grid, col: int, row: int, color: int, dc: int) {
    (dc == -1 || dc == 1) && InRange(col + dc) && InRange(row + color)
    && Cell(g, col + dc, row + color) == -PawnCode * color
  }

  ghost predicate PawnAttack(g: Grid, col: int, row: int, color: int) {
    exists dc :: EnemyPawn(g, col, row, color, dc)
  }

  /** The pawn scan finds an attacker exactly when the reference does, and every square it
      records holds such a pawn. */
  lemma PawnMeaning(g: Grid, col: int, row: int, color: int)
    requires InRange(col)
    ensures |PawnHits(g, col, row, color)| > 0 <==> PawnAttack(g, col, row, color)
    ensures forall h :: h in PawnHits(g, col, row, color) ==>
      h.val == PawnCode && EnemyPawn(g, col, row, color, h.col - col)
  {
    if PawnAttack(g, col, row, color) {
      var dc :| EnemyPawn(g, col, row, color, dc);
      assert dc == -1 || dc == 1;
    }
    if row + color >= 0 && row + color <= 7 {
      if col - 1 >= 0 && Cell(g, col - 1, row + color) == color * -PawnCode {
        assert EnemyPawn(g, col, row, color, -1);
      }
      if col + 1 <= 7 && Cell(g, col + 1, row + color) == color * -PawnCode {
        assert EnemyPawn(g, col, row, color, 1);
      }
    }
  }

  // ---------------------------------------------------------------------------------------------
  // isInCheck

  /** Every hit isInCheck's four scans record, in the order they record them. */
  function Hits(g: Grid, col: int, row: int, color: int): seq<Hit>
    requires InRange(col) && InRange(row)
  {
    OptSeq(RookHit(g, col, row, color)) + OptSeq(BishopHit(g, col, row, color))
    + OptSeq(KnightHit(g, col, row, color)) + PawnHits(g, col, row, color)
  }

  /** The reference for an attacked square: an enemy rook or queen on one of the four lines with
      nothing in between, an enemy bishop or queen likewise on a diagonal, an enemy knight a
      jump away or an enemy pawn diagonally in front.  Kings are not among them. */
  ghost predicate SquareAttacked(g: Grid, col: int, row: int, color: int) {
    var rook := RookLike(color);
    var bishop := BishopLike(color);
    var queen := QueenLike(color);
    || AttackedAlong(g, col, row, 1, 0, rook, queen) || AttackedAlong(g, col, row, -1, 0, rook, queen)
    || AttackedAlong(g, col, row, 0, 1, rook, queen) || AttackedAlong(g, col, row, 0, -1, rook, queen)
    || AttackedAlong(g, col, row, 1, 1, bishop, queen) || AttackedAlong(g, col, row, -1, -1, bishop, queen)
    || AttackedAlong(g, col, row, -1, 1, bishop, queen) || AttackedAlong(g, col, row, 1, -1, bishop, queen)
    || KnightAttack(g, col, row, color) || PawnAttack(g, col, row, color)
  }

  lemma RaysMeaning(g: Grid, col: int, row: int, color: int)
    requires InRange(col) && InRange(row)
    ensures RookHit(g, col, row, color).Some? <==>
      || AttackedAlong(g, col, row, 1, 0, RookLike(color), QueenLike(color))
      || AttackedAlong(g, col, row, -1, 0, RookLike(color), QueenLike(color))
      || AttackedAlong(g, col, row, 0, 1, RookLike(color), QueenLike(color))
      || AttackedAlong(g, col, row, 0, -1, RookLike(color), QueenLike(color))
    ensures BishopHit(g, col, row, color).Some? <==>
      || AttackedAlong(g, col, row, 1, 1, BishopLike(color), QueenLike(color))
      || AttackedAlong(g, col, row, -1, -1, BishopLike(color), QueenLike(color))
      || AttackedAlong(g, col, row, -1, 1, BishopLike(color), QueenLike(color))
      || AttackedAlong(g, col, row, 1, -1, BishopLike(color), QueenLike(color))
  {
    RayMeaning(g, col, row, 1, 0, RookLike(color), QueenLike(color), RookCode);
    RayMeaning(g, col, row, -1, 0, RookLike(color), QueenLike(color), RookCode);
    RayMeaning(g, col, row, 0, 1, RookLike(color), QueenLike(color), RookCode);
    RayMeaning(g, col, row, 0, -1, RookLike(color), QueenLike(color), RookCode);
    RayMeaning(g, col, row, 1, 1, BishopLike(color), QueenLike(color), BishopCode);
    RayMeaning(g, col, row, -1, -1, BishopLike(color), QueenLike(color), BishopCode);
    RayMeaning(g, col, row, -1, 1, BishopLike(color), QueenLike(color), BishopCode);
    RayMeaning(g, col, row, 1, -1, BishopLike(color), QueenLike(color), BishopCode);
  }

  /** isInCheck is true exactly when the square is attacked in the sense of the reference. */
  lemma InCheckMeaning(g: Grid, col: int, row: int, color: int)
    requires InRange(col) && InRange(row)
    ensures |Hits(g, col, row, color)| > 0 <==> SquareAttacked(g, col, row, color)
  {
    RaysMeaning(g, col, row, color);
    KnightMeaning(g, col, row, color);
    PawnMeaning(g, col, row, color);
  }

  /** Every square a scan records holds a piece of the other colour that is not a king
      (for a colour of 1 or -1): enemy kings are never taken for attackers. */
  lemma HitsAreEnemies(g: Grid, col: int, row: int, color: int)
    requires InRange(col) && InRange(row) && (color == WhiteSign || color == BlackSign)
    ensures forall h :: h in Hits(g, col, row, color) ==> Enemy(g, h, color)
  {
    SlidersAreEnemies(g, col, row, color);
    JumpersAreEnemies(g, col, row, color);
    PartsAreEnemies(g, color, RookHit(g, col, row, color), BishopHit(g, col, row, color),
                    KnightHit(g, col, row, color), PawnHits(g, col, row, color));
  }

  lemma PartsAreEnemies(g: Grid, color: int, a: Option<Hit>, b: Option<Hit>, c: Option<Hit>, d: seq<Hit>)
    requires a.Some? ==> Enemy(g, a.value, color)
    requires b.Some? ==> Enemy(g, b.value, color)
    requires c.Some? ==> Enemy(g, c.value, color)
    requires forall h :: h in d ==> Enemy(g, h, color)
    ensures forall h :: h in OptSeq(a) + OptSeq(b) + OptSeq(c) + d ==> Enemy(g, h, color)
  {
  }

  lemma JumpersAreEnemies(g: Grid, col: int, row: int, color: int)
    requires InRange(col) && InRange(row) && (color == WhiteSign || color == BlackSign)
    ensures KnightHit(g, col, row, color).Some? ==> Enemy(g, KnightHit(g, col, row, color).value, color)
    ensures forall h :: h in PawnHits(g, col, row, color) ==> Enemy(g, h, color)
  {
    KnightIsEnemy(g, col, row, color);
    PawnsAreEnemies(g, col, row, color);
  }

  lemma KnightIsEnemy(g: Grid, col: int, row: int, color: int)
    requires InRange(col) && InRange(row) && (color == WhiteSign || color == BlackSign)
    ensures KnightHit(g, col, row, color).Some? ==> Enemy(g, KnightHit(g, col, row, color).value, color)
  {
    KnightMeaning(g, col, row, color);
    if KnightHit(g, col, row, color).Some? {
      var dc, dr :| EnemyKnight(g, col, row, color, dc, dr)
        && KnightHit(g, col, row, color).value == Hit(col + dc, row + dr, KnightCode);
      EnemyCode(Cell(g, col + dc, row + dr), KnightCode, color);
    }
  }

  lemma PawnsAreEnemies(g: Grid, col: int, row: int, color: int)
    requires InRange(col) && (color == WhiteSign || color == BlackSign)
    ensures forall h :: h in PawnHits(g, col, row, color) ==> Enemy(g, h, color)
  {
    PawnMeaning(g, col, row, color);
    forall h | h in PawnHits(g, col, row, color)
      ensures Enemy(g, h, color)
    {
      assert EnemyPawn(g, col, row, color, h.col - col);
      EnemyCode(Cell(g, h.col, h.row), PawnCode, color);
    }
  }

  /** A square holding the other colour's code for a piece other than the king. */
  lemma EnemyCode(p: int, code: int, color: int)
    requires color == WhiteSign || color == BlackSign
    requires 1 <= code < KingCode && (p == -code * color || p == color * -code)
    ensures p * color < 0 && Abs(p) != KingCode
  {
    if color == WhiteSign {
      assert p == -code;
    } else {
      assert p == code;
    }
  }

  lemma SlidersAreEnemies(g: Grid, col: int, row: int, color: int)
    requires InRange(col) && InRange(row) && (color == WhiteSign || color == BlackSign)
    ensures RookHit(g, col, row, color).Some? ==> Enemy(g, RookHit(g, col, row, color).value, color)
    ensures BishopHit(g, col, row, color).Some? ==> Enemy(g, BishopHit(g, col, row, color).value, color)
  {
    RayHitEnemy(g, col, row, 1, 0, RookLike(color), QueenLike(color), RookCode, color);
    RayHitEnemy(g, col, row, -1, 0, RookLike(color), QueenLike(color), RookCode, color);
    RayHitEnemy(g, col, row, 0, 1, RookLike(color), QueenLike(color), RookCode, color);
    RayHitEnemy(g, col, row, 0, -1, RookLike(color), QueenLike(color), RookCode, color);
    RayHitEnemy(g, col, row, 1, 1, BishopLike(color), QueenLike(color), BishopCode, color);
    RayHitEnemy(g, col, row, -1, -1, BishopLike(color), QueenLike(color), BishopCode, color);
    RayHitEnemy(g, col, row, -1, 1, BishopLike(color), QueenLike(color), BishopCode, color);
    RayHitEnemy(g, col, row, 1, -1, BishopLike(color), QueenLike(color), BishopCode, color);
  }

  /** The square of a hit holds a piece of the other colour that is not a king. */
  ghost predicate Enemy(g: Grid, h: Hit, color: int) {
    InRange(h.col) && InRange(h.row)
    && Cell(g, h.col, h.row) * color < 0 && Abs(Cell(g, h.col, h.row)) != KingCode
  }

  lemma RayHitEnemy(g: Grid, col: int, row: int, dc: int, dr: int, a: int, b: int, val: int, color: int)
    requires InRange(col) && InRange(row) && Direction(dc, dr)
    requires a * color < 0 && b * color < 0 && Abs(a) != KingCode && Abs(b) != KingCode
    ensures var h := Ray(g, col, row, dc, dr, a, b, val);
      h.Some? ==> Enemy(g, h.value, color)
  {
    RayMeaning(g, col, row, dc, dr, a, b, val);
  }

  // ---------------------------------------------------------------------------------------------
  // Finding 8: a double check along two lines of the same kind is not noticed

  /** A White king on (4, 0) with Black rooks on (0, 0) and (4, 7) and nothing in between. */
  function TwoRookCheck(): Grid {
    Put(Put(Put(EmptyGrid(), 4, 0, KingCode), 0, 0, -RookCode), 4, 7, -RookCode)
  }

  /** As written: both rooks attack the king, but the rook scan returns after the first, so
      from update()'s state isChecked records one checking piece and no double check. */
  lemma DoubleCheckMissed()
    ensures AttackedAlong(TwoRookCheck(), 4, 0, -1, 0, RookLike(WhiteSign), QueenLike(WhiteSign))
    ensures AttackedAlong(TwoRookCheck(), 4, 0, 0, 1, RookLike(WhiteSign), QueenLike(WhiteSign))
    ensures |Hits(TwoRookCheck(), 4, 0, WhiteSign)| == 1
    ensures !RecordAll(Reset(), Hits(TwoRookCheck(), 4, 0, WhiteSign)).double
  {
    var g := TwoRookCheck();
    var g1 := Put(EmptyGrid(), 4, 0, KingCode);
    var g2 := Put(g1, 0, 0, -RookCode);
    forall c, r | InRange(c) && InRange(r)
      ensures Cell(g, c, r) == if c == 4 && r == 0 then KingCode
                               else if (c == 0 && r == 0) || (c == 4 && r == 7) then -RookCode else NoneCode
    {
      CellPut(EmptyGrid(), 4, 0, KingCode, c, r);
      CellPut(g1, 0, 0, -RookCode, c, r);
      CellPut(g2, 4, 7, -RookCode, c, r);
    }
    var west := Ray(g, 4, 0, -1, 0, RookLike(WhiteSign), QueenLike(WhiteSign), RookCode);
    assert RayFrom(g, 4, 0, -1, 0, RookLike(WhiteSign), QueenLike(WhiteSign), RookCode, 4) == Some(Hit(0, 0, RookCode));
    assert RayFrom(g, 4, 0, -1, 0, RookLike(WhiteSign), QueenLike(WhiteSign), RookCode, 2).Some?;
    assert west.Some?;
    RayMeaning(g, 4, 0, -1, 0, RookLike(WhiteSign), QueenLike(WhiteSign), RookCode);
    assert RayFrom(g, 4, 0, 0, 1, RookLike(WhiteSign), QueenLike(WhiteSign), RookCode, 7) == Some(Hit(4, 7, RookCode));
    assert RayFrom(g, 4, 0, 0, 1, RookLike(WhiteSign), QueenLike(WhiteSign), RookCode, 4).Some?;
    assert RayFrom(g, 4, 0, 0, 1, RookLike(WhiteSign), QueenLike(WhiteSign), RookCode, 1).Some?;
    RayMeaning(g, 4, 0, 0, 1, RookLike(WhiteSign), QueenLike(WhiteSign), RookCode);
    assert RayFrom(g, 4, 0, 1, 1, BishopLike(WhiteSign), QueenLike(WhiteSign), BishopCode, 1).None?;
    assert RayFrom(g, 4, 0, -1, -1, BishopLike(WhiteSign), QueenLike(WhiteSign), BishopCode, 1).None?;
    assert RayFrom(g, 4, 0, -1, 1, BishopLike(WhiteSign), QueenLike(WhiteSign), BishopCode, 1).None?;
    assert RayFrom(g, 4, 0, 1, -1, BishopLike(WhiteSign), QueenLike(WhiteSign), BishopCode, 1).None?;
    assert BishopHit(g, 4, 0, WhiteSign).None?;
    KnightMeaning(g, 4, 0, WhiteSign);
    assert !KnightAttack(g, 4, 0, WhiteSign);
    assert PawnHits(g, 4, 0, WhiteSign) == [];
    assert Hits(g, 4, 0, WhiteSign) == [west.value];
    RecordFromReset(Hits(g, 4, 0, WhiteSign));
  }

  /** The eight rays in isInCheck's order. */
  function RayHits(g: Grid, col: int, row: int, color: int): seq<Option<Hit>>
    requires InRange(col) && InRange(row)
  {
    [ Ray(g, col, row, 1, 0, RookLike(color), QueenLike(color), RookCode),
      Ray(g, col, row, -1, 0, RookLike(color), QueenLike(color), RookCode),
      Ray(g, col, row, 0, 1, RookLike(color), QueenLike(color), RookCode),
      Ray(g, col, row, 0, -1, RookLike(color), QueenLike(color), RookCode),
      Ray(g, col, row, 1, 1, BishopLike(color), QueenLike(color), BishopCode),
      Ray(g, col, row, -1, -1, BishopLike(color), QueenLike(color), BishopCode),
      Ray(g, col, row, -1, 1, BishopLike(color), QueenLike(color), BishopCode),
      Ray(g, col, row, 1, -1, BishopLike(color), QueenLike(color), BishopCode) ]
  }

  /** The hits among a sequence of scan outcomes. */
  function Somes(s: seq<Option<Hit>>): seq<Hit>
    decreases |s|
  {
    if |s| == 0 then [] else OptSeq(s[0]) + Somes(s[1..])
  }

  /** Corrected: every ray is scanned, so each line holding an attacker contributes its hit. */
  function HitsCorrected(g: Grid, col: int, row: int, color: int): seq<Hit>
    requires InRange(col) && InRange(row)
  {
    Somes(RayHits(g, col, row, color) + [KnightHit(g, col, row, color)]) + PawnHits(g, col, row, color)
  }

  lemma {:induction false} SomesTwo(s: seq<Option<Hit>>, i: int, j: int)
    requires 0 <= i < j < |s| && s[i].Some? && s[j].Some?
    ensures |Somes(s)| >= 2
    decreases |s|
  {
    if i == 0 {
      SomesOne(s[1..], j - 1);
    } else {
      SomesTwo(s[1..], i - 1, j - 1);
    }
  }

  lemma {:induction false} SomesOne(s: seq<Option<Hit>>, j: int)
    requires 0 <= j < |s| && s[j].Some?
    ensures |Somes(s)| >= 1
    decreases |s|
  {
    if j > 0 && s[0].None? {
      SomesOne(s[1..], j - 1);
    }
  }

  lemma {:induction false} SomesKinds(s: seq<Option<Hit>>)
    requires forall i :: 0 <= i < |s| && s[i].Some? ==> s[i].value.val != -1
    ensures forall h :: h in Somes(s) ==> h.val != -1
    decreases |s|
  {
    if |s| > 0 {
      SomesKinds(s[1..]);
    }
  }

  /** Corrected: any two attacked lines make a double check. */
  lemma DoubleCheckCorrected(g: Grid, col: int, row: int, color: int, i: int, j: int)
    requires InRange(col) && InRange(row)
    requires 0 <= i < j < 8 && RayHits(g, col, row, color)[i].Some? && RayHits(g, col, row, color)[j].Some?
    ensures |HitsCorrected(g, col, row, color)| >= 2
    ensures RecordAll(Reset(), HitsCorrected(g, col, row, color)).double
  {
    var s := RayHits(g, col, row, color) + [KnightHit(g, col, row, color)];
    assert s[i] == RayHits(g, col, row, color)[i] && s[j] == RayHits(g, col, row, color)[j];
    SomesTwo(s, i, j);
    SomesKinds(s);
    var hits := HitsCorrected(g, col, row, color);
    assert hits[0] == Somes(s)[0];
    RecordFromReset(hits);
  }

  /** Corrected, isInCheck's answer is unchanged: some hit is found exactly when the scans as
      written find one. */
  lemma CorrectedSameAnswer(g: Grid, col: int, row: int, color: int)
    requires InRange(col) && InRange(row)
    ensures |HitsCorrected(g, col, row, color)| > 0 <==> |Hits(g, col, row, color)| > 0
  {
    var s := RayHits(g, col, row, color) + [KnightHit(g, col, row, color)];
    var found := s[0].Some? || s[1].Some? || s[2].Some? || s[3].Some? || s[4].Some?
      || s[5].Some? || s[6].Some? || s[7].Some? || s[8].Some?;
    SomesIff(s);
    assert |s| == 9;
    assert (exists j :: 0 <= j < |s| && s[j].Some?) <==> found;
    RookBishopFound(g, col, row, color);
    assert |Hits(g, col, row, color)| > 0 <==>
      RookHit(g, col, row, color).Some? || BishopHit(g, col, row, color).Some?
      || KnightHit(g, col, row, color).Some? || |PawnHits(g, col, row, color)| > 0;
  }

  /** The lines the as-written scan stops at are found among the rays it skips. */
  lemma RookBishopFound(g: Grid, col: int, row: int, color: int)
    requires InRange(col) && InRange(row)
    ensures var s := RayHits(g, col, row, color);
      && (RookHit(g, col, row, color).Some? <==> s[0].Some? || s[1].Some? || s[2].Some? || s[3].Some?)
      && (BishopHit(g, col, row, color).Some? <==> s[4].Some? || s[5].Some? || s[6].Some? || s[7].Some?)
  {
  }

  /** Somes is empty exactly when every entry is None. */
  lemma SomesIff(s: seq<Option<Hit>>)
    ensures |Somes(s)| > 0 <==> exists j :: 0 <= j < |s| && s[j].Some?
  {
    if |Somes(s)| > 0 {
      SomesAny(s);
    }
    if j :| 0 <= j < |s| && s[j].Some? {
      SomesOne(s, j);
    }
  }

  lemma {:induction false} SomesAny(s: seq<Option<Hit>>)
    requires |Somes(s)| > 0
    ensures exists j :: 0 <= j < |s| && s[j].Some?
    decreases |s|
  {
    if s[0].None? {
      SomesAny(s[1..]);
      var j :| 0 <= j < |s| - 1 && s[1..][j].Some?;
      assert s[j + 1].Some?;
    }
  }
}
