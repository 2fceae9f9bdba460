/** The value model of `Jogo.Board`: an 8x8 grid stored row-major, the castling
    flags, the en-passant target, the side to move, the half-move clock and the
    repetition table.  `Apply` is the pure specification of `makeMove`, `Fen` of
    `generateFEN`, and `IsSquareAttacked` is the read-only attack scan. */
module Positions {
  import opened Wrappers
  import opened Pieces
  import opened Moves

  /** A cell: empty (Java null) or a piece. */
  type Square = Option<Piece>

  /** Row r, column c is stored at index r * 8 + c. */
  type Grid = g: seq<Square> | |g| == 64 witness seq(64, _ => None)

  predicate OnBoard(r: int, c: int)
  {
    0 <= r < 8 && 0 <= c < 8
  }

  function At(g: Grid, r: int, c: int): Square
    requires OnBoard(r, c)
  {
    g[r * 8 + c]
  }

  /** The grid with one cell replaced and every other cell kept. */
  function Put(g: Grid, r: int, c: int, x: Square): (h: Grid)
    requires OnBoard(r, c)
    ensures At(h, r, c) == x
    ensures forall r', c' :: OnBoard(r', c') && (r' != r || c' != c) ==> At(h, r', c') == At(g, r', c')
  {
    g[r * 8 + c := x]
  }

  /** True when (r, c) is on the board and holds exactly `piece`; off-board
      squares hold nothing, which is how the scans skip them. */
  predicate Holds(g: Grid, r: int, c: int, piece: Piece)
  {
    OnBoard(r, c) && At(g, r, c) == Some(piece)
  }

  datatype Position = Position(
    grid: Grid,
    enPassantRow: int,
    enPassantCol: int,
    whiteCastleKing: bool,
    whiteCastleQueen: bool,
    blackCastleKing: bool,
    blackCastleQueen: bool,
    whiteToMove: bool,
    halfmoveClock: int,
    repetitionCounts: map<string, int>)

  /** `getOrDefault(key, 0)` on the repetition table. */
  function CountOf(counts: map<string, int>, key: string): int
  {
    if key in counts then counts[key] else 0
  }

  function Abs(x: int): nat
  {
    if x < 0 then -x else x
  }

  predicate IsPawn(s: Square)
  {
    s == Some(WhitePawn) || s == Some(BlackPawn)
  }

  predicate IsKing(s: Square)
  {
    s == Some(WhiteKing) || s == Some(BlackKing)
  }

  // ---------------------------------------------------------------- start

  /** The back rank of the start position, file by file. */
  function BackRank(white: bool, c: int): Piece
  {
    var k := if c == 0 || c == 7 then Rook
             else if c == 1 || c == 6 then Knight
             else if c == 2 || c == 5 then Bishop
             else if c == 3 then Queen
             else King;
    Make(white, k)
  }

  function StartCell(r: int, c: int): Square
  {
    if r == 0 then Some(BackRank(true, c))
    else if r == 1 then Some(WhitePawn)
    else if r == 6 then Some(BlackPawn)
    else if r == 7 then Some(BackRank(false, c))
    else None
  }

  /** The grid `setupStartPosition` writes. */
  function StartGrid(): (g: Grid)
    ensures forall r, c | OnBoard(r, c) :: At(g, r, c) == StartCell(r, c)
  {
    var g: Grid := seq(64, i requires 0 <= i < 64 => StartCell(i / 8, i % 8));
    assert forall r, c | OnBoard(r, c) :: (r * 8 + c) / 8 == r && (r * 8 + c) % 8 == c;
    g
  }

  /** The position the no-argument constructor builds: all rights, no target,
      white to move, clock 0, and its own FEN counted once. */
  function StartPosition(): (p: Position)
    ensures p.repetitionCounts == map[Fen(p) := 1]
  {
    var p0 := Position(StartGrid(), -1, -1, true, true, true, true, true, 0, map[]);
    p0.(repetitionCounts := map[Fen(p0) := 1])
  }

  // ---------------------------------------------------------------- makeMove

  /** True for a pawn moving to another file onto an empty square: the case in
      which `makeMove` takes the piece beside the pawn instead. */
  predicate EnPassantCapture(g: Grid, m: Move)
    requires OnBoard(m.fromRow, m.fromCol) && OnBoard(m.toRow, m.toCol)
  {
    IsPawn(At(g, m.fromRow, m.fromCol)) && m.fromCol != m.toCol && At(g, m.toRow, m.toCol).None?
  }

  /** True for a king moving two files: the case in which a rook moves too. */
  predicate Castling(g: Grid, m: Move)
    requires OnBoard(m.fromRow, m.fromCol) && OnBoard(m.toRow, m.toCol)
  {
    IsKing(At(g, m.fromRow, m.fromCol)) && Abs(m.toCol - m.fromCol) == 2
  }

  /** The piece that lands on the destination. */
  function Landing(g: Grid, m: Move): Square
    requires OnBoard(m.fromRow, m.fromCol) && OnBoard(m.toRow, m.toCol)
  {
    var piece := At(g, m.fromRow, m.fromCol);
    if IsPawn(piece) && m.promotion.Some? then m.promotion else piece
  }

  /** The grid after the en-passant removal (if any). */
  function AfterCapture(g: Grid, m: Move): Grid
    requires OnBoard(m.fromRow, m.fromCol) && OnBoard(m.toRow, m.toCol)
  {
    if EnPassantCapture(g, m) then Put(g, m.fromRow, m.toCol, None) else g
  }

  /** The grid after the castling rook has moved (if any). */
  function AfterRook(g: Grid, m: Move): Grid
    requires OnBoard(m.fromRow, m.fromCol) && OnBoard(m.toRow, m.toCol)
  {
    var g1 := AfterCapture(g, m);
    var home := m.fromRow;
    if !Castling(g, m) then g1
    else if m.toCol == 6 then Put(Put(g1, home, 5, At(g1, home, 7)), home, 7, None)
    else Put(Put(g1, home, 3, At(g1, home, 0)), home, 0, None)
  }

  /** The grid `makeMove` leaves: rook and en-passant updates, then the
      destination, then the source. */
  function GridAfter(g: Grid, m: Move): Grid
    requires OnBoard(m.fromRow, m.fromCol) && OnBoard(m.toRow, m.toCol)
  {
    Put(Put(AfterRook(g, m), m.toRow, m.toCol, Landing(g, m)), m.fromRow, m.fromCol, None)
  }

  /** Whether the move captures: the destination's occupant, or the pawn taken
      en passant. */
  predicate Captures(g: Grid, m: Move)
    requires OnBoard(m.fromRow, m.fromCol) && OnBoard(m.toRow, m.toCol)
  {
    At(g, m.toRow, m.toCol).Some? || (EnPassantCapture(g, m) && At(g, m.fromRow, m.toCol).Some?)
  }

  /** The castling rights after the move, in the order white king-side,
      white queen-side, black king-side, black queen-side: only the moved piece
      is tested, a king clearing both of its colour's rights and a rook leaving
      its home corner clearing that corner's right. */
  function RightsAfter(p: Position, m: Move): (bool, bool, bool, bool)
    requires OnBoard(m.fromRow, m.fromCol) && OnBoard(m.toRow, m.toCol)
  {
    var piece := At(p.grid, m.fromRow, m.fromCol);
    (p.whiteCastleKing && piece != Some(WhiteKing)
       && !(piece == Some(WhiteRook) && m.fromRow == 0 && m.fromCol == 7),
     p.whiteCastleQueen && piece != Some(WhiteKing)
       && !(piece == Some(WhiteRook) && m.fromRow == 0 && m.fromCol == 0),
     p.blackCastleKing && piece != Some(BlackKing)
       && !(piece == Some(BlackRook) && m.fromRow == 7 && m.fromCol == 7),
     p.blackCastleQueen && piece != Some(BlackKing)
       && !(piece == Some(BlackRook) && m.fromRow == 7 && m.fromCol == 0))
  }

  /** The en-passant target after the move: the square a pawn's two-row step
      passes over, else (-1, -1). */
  function TargetAfter(g: Grid, m: Move): (int, int)
    requires OnBoard(m.fromRow, m.fromCol) && OnBoard(m.toRow, m.toCol)
  {
    if IsPawn(At(g, m.fromRow, m.fromCol)) && Abs(m.toRow - m.fromRow) == 2
    then ((m.fromRow + m.toRow) / 2, m.fromCol)
    else (-1, -1)
  }

  /** The half-move clock after the move: reset by a pawn changing row or by a
      capture, else one more. */
  function ClockAfter(p: Position, m: Move): int
    requires OnBoard(m.fromRow, m.fromCol) && OnBoard(m.toRow, m.toCol)
  {
    if (IsPawn(At(p.grid, m.fromRow, m.fromCol)) && m.fromRow != m.toRow) || Captures(p.grid, m) then 0
    else p.halfmoveClock + 1
  }

  /** Everything `makeMove` changes except the repetition table. */
  function Moved(p: Position, m: Move): Position
    requires OnBoard(m.fromRow, m.fromCol) && OnBoard(m.toRow, m.toCol)
  {
    var rights := RightsAfter(p, m);
    var target := TargetAfter(p.grid, m);
    Position(GridAfter(p.grid, m), target.0, target.1, rights.0, rights.1, rights.2, rights.3,
             !p.whiteToMove, ClockAfter(p, m), p.repetitionCounts)
  }

  /** `makeMove` for a move whose two squares are on the board: the new state,
      with its FEN counted once more in the repetition table. */
  function Apply(p: Position, m: Move): Position
    requires OnBoard(m.fromRow, m.fromCol) && OnBoard(m.toRow, m.toCol)
  {
    Counted(Moved(p, m))
  }

  /** The position with its own FEN counted once more in its table. */
  function Counted(q: Position): Position
  {
    CountedAs(q, Fen(q))
  }

  /** The position with `key` counted once more in its table. */
  function CountedAs(q: Position, key: string): Position
  {
    q.(repetitionCounts := q.repetitionCounts[key := CountOf(q.repetitionCounts, key) + 1])
  }

  /** Castling rights only ever go from true to false: a king move clears both of
      its colour's rights, a rook leaving its home corner clears that corner's
      right, and nothing else (a captured rook included) touches them. */
  lemma ApplyCastlingRights(p: Position, m: Move)
    requires OnBoard(m.fromRow, m.fromCol) && OnBoard(m.toRow, m.toCol)
    ensures var q, piece := Apply(p, m), At(p.grid, m.fromRow, m.fromCol);
      && (q.whiteCastleKing ==> p.whiteCastleKing) && (q.whiteCastleQueen ==> p.whiteCastleQueen)
      && (q.blackCastleKing ==> p.blackCastleKing) && (q.blackCastleQueen ==> p.blackCastleQueen)
      && (piece == Some(WhiteKing) ==> !q.whiteCastleKing && !q.whiteCastleQueen)
      && (piece == Some(BlackKing) ==> !q.blackCastleKing && !q.blackCastleQueen)
      && (piece == Some(WhiteRook) && m.fromRow == 0 && m.fromCol == 0 ==> !q.whiteCastleQueen)
      && (piece == Some(WhiteRook) && m.fromRow == 0 && m.fromCol == 7 ==> !q.whiteCastleKing)
      && (piece == Some(BlackRook) && m.fromRow == 7 && m.fromCol == 0 ==> !q.blackCastleQueen)
      && (piece == Some(BlackRook) && m.fromRow == 7 && m.fromCol == 7 ==> !q.blackCastleKing)
      && (!IsKing(piece) && piece != Some(WhiteRook) && piece != Some(BlackRook) ==>
            q.whiteCastleKing == p.whiteCastleKing && q.whiteCastleQueen == p.whiteCastleQueen
            && q.blackCastleKing == p.blackCastleKing && q.blackCastleQueen == p.blackCastleQueen)
  {
  }

  /** The en-passant target is the square passed over by a pawn's two-row step
      and is cleared by every other move; a pawn changing file onto an empty
      square removes whatever stands beside it on its own row. */
  lemma ApplyEnPassant(p: Position, m: Move)
    requires OnBoard(m.fromRow, m.fromCol) && OnBoard(m.toRow, m.toCol)
    ensures var q, piece := Apply(p, m), At(p.grid, m.fromRow, m.fromCol);
      && (IsPawn(piece) && Abs(m.toRow - m.fromRow) == 2 ==>
            q.enPassantRow == (m.fromRow + m.toRow) / 2 && q.enPassantCol == m.fromCol
            && OnBoard(q.enPassantRow, q.enPassantCol))
      && (!(IsPawn(piece) && Abs(m.toRow - m.fromRow) == 2) ==> q.enPassantRow == -1 && q.enPassantCol == -1)
      && (IsPawn(piece) && m.fromCol != m.toCol && m.fromRow != m.toRow && At(p.grid, m.toRow, m.toCol).None? ==>
            At(q.grid, m.fromRow, m.toCol).None?)
  {
  }

  /** A king stepping two files from column 4 brings the corner rook of its row
      next to it: column 7 to 5 going right, column 0 to 3 going left. */
  lemma ApplyCastlingRook(p: Position, m: Move)
    requires OnBoard(m.fromRow, m.fromCol) && OnBoard(m.toRow, m.toCol)
    requires IsKing(At(p.grid, m.fromRow, m.fromCol)) && m.fromCol == 4 && Abs(m.toCol - m.fromCol) == 2
    ensures var q, home := Apply(p, m), m.fromRow;
      if m.toCol == 6 then At(q.grid, home, 5) == At(p.grid, home, 7) && At(q.grid, home, 7).None?
      else At(q.grid, home, 3) == At(p.grid, home, 0) && At(q.grid, home, 0).None?
  {
    var g1 := AfterCapture(p.grid, m);
    assert g1 == p.grid;
    var g2 := AfterRook(p.grid, m);
    var home := m.fromRow;
    if m.toCol == 6 {
      assert At(g2, home, 5) == At(p.grid, home, 7) && At(g2, home, 7).None?;
    } else {
      assert At(g2, home, 3) == At(p.grid, home, 0) && At(g2, home, 0).None?;
    }
  }

  /** The source is always left empty; the destination gets the promotion piece
      for a pawn carrying one and the moved piece otherwise; every square the
      move does not name is kept, apart from the en-passant victim's square and
      the castling rook's two squares. */
  lemma ApplyPlacement(p: Position, m: Move)
    requires OnBoard(m.fromRow, m.fromCol) && OnBoard(m.toRow, m.toCol)
    ensures var q, piece := Apply(p, m), At(p.grid, m.fromRow, m.fromCol);
      && At(q.grid, m.fromRow, m.fromCol).None?
      && ((m.fromRow != m.toRow || m.fromCol != m.toCol) ==>
            At(q.grid, m.toRow, m.toCol) == (if IsPawn(piece) && m.promotion.Some? then m.promotion else piece))
      && (forall r, c | OnBoard(r, c) && (r, c) != (m.fromRow, m.fromCol) && (r, c) != (m.toRow, m.toCol)
                        && (r, c) != (m.fromRow, m.toCol) && !(r == m.fromRow && c in {0, 3, 5, 7}) ::
            At(q.grid, r, c) == At(p.grid, r, c))
  {
    var q := Apply(p, m);
    assert q.grid == GridAfter(p.grid, m);
    var g1 := AfterCapture(p.grid, m);
    var g2 := AfterRook(p.grid, m);
    forall r, c | OnBoard(r, c) && (r, c) != (m.fromRow, m.toCol) && !(r == m.fromRow && c in {0, 3, 5, 7})
      ensures At(g2, r, c) == At(p.grid, r, c)
    {
      assert At(g1, r, c) == At(p.grid, r, c);
    }
  }

  /** The clock restarts after a pawn advance or any capture, en passant
      included, and counts up otherwise; the side flips; the new position's FEN
      is counted once more and no other count changes. */
  lemma ApplyCounters(p: Position, m: Move)
    requires OnBoard(m.fromRow, m.fromCol) && OnBoard(m.toRow, m.toCol)
    ensures var q, piece := Apply(p, m), At(p.grid, m.fromRow, m.fromCol);
      var epVictim := IsPawn(piece) && m.fromCol != m.toCol && At(p.grid, m.toRow, m.toCol).None?
                      && At(p.grid, m.fromRow, m.toCol).Some?;
      var reset := (IsPawn(piece) && m.fromRow != m.toRow) || At(p.grid, m.toRow, m.toCol).Some? || epVictim;
      && (reset ==> q.halfmoveClock == 0)
      && (!reset ==> q.halfmoveClock == p.halfmoveClock + 1)
      && q.whiteToMove == !p.whiteToMove
      && CountOf(q.repetitionCounts, Fen(q)) == CountOf(p.repetitionCounts, Fen(q)) + 1
      && (forall key | key != Fen(q) :: CountOf(q.repetitionCounts, key) == CountOf(p.repetitionCounts, key))
  {
    assert Fen(Apply(p, m)) == Fen(Moved(p, m));
  }

  // ---------------------------------------------------------------- FEN

  /** The decimal digit for 0..9. */
  function Digit(n: int): char
    requires 0 <= n <= 9
  {
    ('0' as int + n) as char
  }

  /** An empty run is written as its length, and only when it is not zero. */
  function EmptyRun(emp: int): string
    requires 0 <= emp <= 8
  {
    if emp > 0 then [Digit(emp)] else []
  }

  /** Row r of the grid, column 0 first. */
  function Row(g: Grid, r: int): (row: seq<Square>)
    requires 0 <= r < 8
    ensures |row| == 8 && forall c | 0 <= c < 8 :: row[c] == At(g, r, c)
  {
    g[r * 8 .. r * 8 + 8]
  }

  /** The text of the cells left in a row, with `emp` empty cells pending
      before them: each run of empty cells as its length, each piece as its
      symbol. */
  function RankText(cells: seq<Square>, emp: int): string
    requires 0 <= emp && emp + |cells| <= 8
    decreases |cells|
  {
    if cells == [] then EmptyRun(emp)
    else if cells[0].None? then RankText(cells[1..], emp + 1)
    else EmptyRun(emp) + [Symbol(cells[0].value)] + RankText(cells[1..], 0)
  }

  /** The placement text of whole rows stored row-major from the lowest:
      the highest row first, rows separated by '/'. */
  function Placement(cells: seq<Square>): string
    requires |cells| % 8 == 0
    decreases |cells|
  {
    if |cells| <= 8 then RankText(cells, 0)
    else Placement(cells[8..]) + "/" + RankText(cells[..8], 0)
  }

  /** The placement from row `r` up: row `r`'s text after the rows above
      it, the two separated by '/'. */
  lemma PlacementFrom(g: Grid, r: int)
    requires 0 <= r < 8
    ensures Placement(g[8 * r..]) == (if r < 7 then Placement(g[8 * (r + 1)..]) + "/" else "") + RankText(Row(g, r), 0)
  {
    var rest := g[8 * r..];
    assert rest[..8] == Row(g, r);
    if r < 7 {
      assert rest[8..] == g[8 * (r + 1)..];
    } else {
      assert rest == Row(g, r);
    }
  }

  /** The castling field: the letters K, Q, k, q of the rights held, in that
      order, or "-" when none is held. */
  function CastlingText(wk: bool, wq: bool, bk: bool, bq: bool): (s: string)
    ensures s == "-" <==> !(wk || wq || bk || bq)
  {
    var c1 := if wk then "K" else "";
    var c2 := if wq then c1 + "Q" else c1;
    var c3 := if bk then c2 + "k" else c2;
    var c4 := if bq then c3 + "q" else c3;
    assert |c4| == (if wk then 1 else 0) + (if wq then 1 else 0) + (if bk then 1 else 0) + (if bq then 1 else 0);
    assert |c4| > 0 ==> c4[0] != '-';
    if |c4| > 0 then c4 else "-"
  }

  function EnPassantText(row: int, col: int): string
  {
    if row >= 0 then [Chr('a' as int + col), Chr('1' as int + row)] else "-"
  }

  /** `generateFEN`: placement, side, castling and en passant, space separated.
      The clock and the repetition table do not take part. */
  function Fen(p: Position): string
  {
    Placement(p.grid) + (if p.whiteToMove then " w " else " b ")
    + CastlingText(p.whiteCastleKing, p.whiteCastleQueen, p.blackCastleKing, p.blackCastleQueen)
    + " " + EnPassantText(p.enPassantRow, p.enPassantCol)
  }

  // ---------------------------------------------------------------- attacks

  const KnightDeltas: seq<(int, int)> := [(2, 1), (2, -1), (-2, 1), (-2, -1), (1, 2), (1, -2), (-1, 2), (-1, -2)]
  const RookDirs: seq<(int, int)> := [(1, 0), (-1, 0), (0, 1), (0, -1)]
  const BishopDirs: seq<(int, int)> := [(1, 1), (1, -1), (-1, 1), (-1, -1)]
  const QueenDirs: seq<(int, int)> := RookDirs + BishopDirs
  /** The king's neighbourhood in the order of the nested dr/dc loops. */
  const KingDeltas: seq<(int, int)> := [(-1, -1), (-1, 0), (-1, 1), (0, -1), (0, 1), (1, -1), (1, 0), (1, 1)]

  /** A unit step in one of the eight directions. */
  predicate UnitStep(dr: int, dc: int)
  {
    -1 <= dr <= 1 && -1 <= dc <= 1 && (dr != 0 || dc != 0)
  }

  /** How many steps of (dr, dc) from (r, c) stay on the board. */
  function StepsLeft(r: int, c: int, dr: int, dc: int): nat
  {
    if !OnBoard(r, c) then 0
    else
      var a := if dr > 0 then 8 - r else if dr < 0 then r + 1 else 0;
      var b := if dc > 0 then 8 - c else if dc < 0 then c + 1 else 0;
      a + b
  }

  /** A step along a direction from an on-board square leaves fewer steps. */
  lemma StepsLeftDecreases(r: int, c: int, dr: int, dc: int)
    requires OnBoard(r, c) && UnitStep(dr, dc)
    ensures StepsLeft(r + dr, c + dc, dr, dc) < StepsLeft(r, c, dr, dc)
  {
  }

  /** The first occupied square met walking from (r, c) in direction (dr, dc),
      (r, c) included; None when the walk leaves the board first. */
  function FirstOccupied(g: Grid, r: int, c: int, dr: int, dc: int): (s: Square)
    requires UnitStep(dr, dc)
    decreases StepsLeft(r, c, dr, dc)
  {
    if !OnBoard(r, c) then None
    else if At(g, r, c).Some? then At(g, r, c)
    else FirstOccupied(g, r + dr, c + dc, dr, dc)
  }

  predicate KnightAttack(g: Grid, row: int, col: int, byWhite: bool)
  {
    exists i | 0 <= i < |KnightDeltas| ::
      Holds(g, row + KnightDeltas[i].0, col + KnightDeltas[i].1, Make(byWhite, Knight))
  }

  /** A white pawn attacks from the row below, a black pawn from the row above. */
  predicate PawnAttack(g: Grid, row: int, col: int, byWhite: bool)
  {
    var pd := if byWhite then -1 else 1;
    Holds(g, row + pd, col - 1, Make(byWhite, Pawn)) || Holds(g, row + pd, col + 1, Make(byWhite, Pawn))
  }

  /** The first piece on some ray in `dirs` is of colour `byWhite` and of one of `kinds`. */
  predicate SliderAttack(g: Grid, row: int, col: int, byWhite: bool, dirs: seq<(int, int)>, kinds: set<Kind>)
    requires forall i | 0 <= i < |dirs| :: UnitStep(dirs[i].0, dirs[i].1)
  {
    exists i | 0 <= i < |dirs| ::
      var q := FirstOccupied(g, row + dirs[i].0, col + dirs[i].1, dirs[i].0, dirs[i].1);
      q.Some? && IsWhite(q.value) == byWhite && KindOf(q.value) in kinds
  }

  predicate KingAttack(g: Grid, row: int, col: int, byWhite: bool)
  {
    exists i | 0 <= i < |KingDeltas| ::
      Holds(g, row + KingDeltas[i].0, col + KingDeltas[i].1, Make(byWhite, King))
  }

  /** `isSquareAttacked`: defined for every pair of ints; off-board neighbours
      are skipped, so an off-board square can still be attacked. */
  predicate IsSquareAttacked(g: Grid, row: int, col: int, byWhite: bool)
  {
    || KnightAttack(g, row, col, byWhite)
    || PawnAttack(g, row, col, byWhite)
    || SliderAttack(g, row, col, byWhite, RookDirs, {Rook, Queen})
    || SliderAttack(g, row, col, byWhite, BishopDirs, {Bishop, Queen})
    || KingAttack(g, row, col, byWhite)
  }

  /** The index of the first cell holding `piece`, or -1 when none does. */
  function IndexOf(cells: seq<Square>, piece: Piece): (k: int)
    ensures -1 <= k < |cells|
    ensures k >= 0 ==> cells[k] == Some(piece) && forall j | 0 <= j < k :: cells[j] != Some(piece)
    ensures k == -1 ==> forall j | 0 <= j < |cells| :: cells[j] != Some(piece)
    decreases |cells|
  {
    if cells == [] then -1
    else if cells[0] == Some(piece) then 0
    else
      var k := IndexOf(cells[1..], piece);
      if k < 0 then -1 else k + 1
  }

  /** The first square in row-major order holding `piece`, or (-1, -1) when
      there is none. */
  function Locate(g: Grid, piece: Piece): (rc: (int, int))
    ensures rc == (-1, -1) || (OnBoard(rc.0, rc.1) && At(g, rc.0, rc.1) == Some(piece))
    ensures rc == (-1, -1) <==> forall r, c | OnBoard(r, c) :: At(g, r, c) != Some(piece)
  {
    var k := IndexOf(g, piece);
    if k < 0 then (-1, -1)
    else
      assert At(g, k / 8, k % 8) == g[k];
      (k / 8, k % 8)
  }

  /** The king search of `isInCheck` and of the legality filter. */
  function FindKing(g: Grid, white: bool): (int, int)
  {
    Locate(g, Make(white, King))
  }
}
