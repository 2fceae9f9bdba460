/** The static evaluators of the search classes, scored from white's point of
    view: the purely material `evaluate` of `SearchEngine`, `AlphaBeta`,
    `AlphaBetaB` and `AlphaBetaC2`, and the material-plus-square-table
    `evaluate` of `BetterSquares`.  Both are sums of one value per cell; the
    methods walk the board's array as the source does and are proved to
    compute those sums. */
module Evaluation {
  import opened Wrappers
  import opened Pieces
  import opened Positions
  import opened Boards

  const PawnValue := 100
  const KnightValue := 320
  const BishopValue := 330
  const RookValue := 500
  const QueenValue := 900
  const KingValue := 20000

  /** Java's `Integer.MIN_VALUE` and `Integer.MAX_VALUE`, the searches'
      sentinels, and the score of a won game. */
  const MinValue: int := -0x8000_0000
  const MaxValue: int := 0x7FFF_FFFF
  const MateScore: int := 100_000_000

  /** No evaluation leaves this range: 64 cells of at most a king each. */
  const EvalBound := 64 * KingValue

  /** The switch of the material `evaluate`: a king counts 20000, and
      black pieces count negatively. */
  function MaterialValue(pc: Piece): int
  {
    match pc
    case WhitePawn => PawnValue
    case WhiteKnight => KnightValue
    case WhiteBishop => BishopValue
    case WhiteRook => RookValue
    case WhiteQueen => QueenValue
    case WhiteKing => KingValue
    case BlackPawn => -PawnValue
    case BlackKnight => -KnightValue
    case BlackBishop => -BishopValue
    case BlackRook => -RookValue
    case BlackQueen => -QueenValue
    case BlackKing => -KingValue
  }

  /** `pieceValue` of `AlphaBetaC2` and `BetterSquares`: colour-blind, and the
      king falls to the default case, 0. */
  function PieceValue(pc: Piece): int
  {
    match pc
    case WhitePawn | BlackPawn => PawnValue
    case WhiteKnight | BlackKnight => KnightValue
    case WhiteBishop | BlackBishop => BishopValue
    case WhiteRook | BlackRook => RookValue
    case WhiteQueen | BlackQueen => QueenValue
    case _ => 0
  }

  /** The two tables agree: `pieceValue` is the size of the material value,
      except that it ignores kings. */
  lemma PieceValueIsUnsignedMaterial(pc: Piece)
    ensures PieceValue(pc) == if KindOf(pc) == King then 0
                              else if IsWhite(pc) then MaterialValue(pc)
                              else -MaterialValue(pc)
    ensures PieceValue(pc) >= 0
  {
  }

  /** Changing a piece's colour negates its material value and keeps its
      `pieceValue`. */
  lemma SwapValues(pc: Piece)
    ensures MaterialValue(Swap(pc)) == -MaterialValue(pc)
    ensures PieceValue(Swap(pc)) == PieceValue(pc)
  {
  }

  // ------------------------------------------------------------ square tables

  /** The square tables of `BetterSquares`, row 0 first; white pieces read
      row r, black pieces row 7 - r. */
  const PawnTable: seq<seq<int>> := [
    [0,   0,   0,   0,   0,   0,   0,   0],
    [50,  50,  50,  50,  50,  50,  50,  50],
    [10,  10,  20,  30,  30,  20,  10,  10],
    [15,  15,  15,  25,  25,  10,   5,   5],
    [0,   0,   0,  20,  20,   0,   0,   0],
    [5,   5,  10,   0,   0, -10,  -5,   5],
    [5,  10,  10, -20, -20,  10,  10,   5],
    [0,   0,   0,   0,   0,   0,   0,   0]]

  const KnightTable: seq<seq<int>> := [
    [-50, -40, -30, -30, -30, -30, -40, -50],
    [-40, -20,   0,   0,   0,   0, -20, -40],
    [-30,   0,  10,  15,  15,  10,   0, -30],
    [-30,   5,  15,  20,  20,  15,   5, -30],
    [-30,   0,  15,  20,  20,  15,   0, -30],
    [-30,   5,  10,  15,  15,  10,   5, -30],
    [-40, -20,   0,   5,   5,   0, -20, -40],
    [-50, -40, -30, -30, -30, -30, -40, -50]]

  const BishopTable: seq<seq<int>> := [
    [-20, -10, -10, -10, -10, -10, -10, -20],
    [-10,   0,   0,   0,   0,   0,   0, -10],
    [-10,   0,   5,  10,  10,   5,   0, -10],
    [-10,   5,   5,  10,  10,   5,   5, -10],
    [-10,   0,  10,  10,  10,  10,   0, -10],
    [-10,  10,  10,  10,  10,  10,  10, -10],
    [-10,   5,   0,   0,   0,   0,   5, -10],
    [-20, -10, -10, -10, -10, -10, -10, -20]]

  const RookTable: seq<seq<int>> := [
    [0,   0,   0,   0,   0,   0,   0,   0],
    [5,  10,  10,  10,  10,  10,  10,   5],
    [-5,   0,   0,   0,   0,   0,   0,  -5],
    [-5,   0,   0,   0,   0,   0,   0,  -5],
    [-5,   0,   0,   0,   0,   0,   0,  -5],
    [-5,   0,   0,   0,   0,   0,   0,  -5],
    [-5,   0,   0,   0,   0,   0,   0,  -5],
    [0,   0,   0,   5,   5,   0,   0,   0]]

  const QueenTable: seq<seq<int>> := [
    [-20, -10, -10,  -5,  -5, -10, -10, -20],
    [-10,   0,   0,   0,   0,   0,   0, -10],
    [-10,   0,   5,   5,   5,   5,   0, -10],
    [-5,   0,   5,   5,   5,   5,   0,  -5],
    [0,   0,   5,   5,   5,   5,   0,  -5],
    [-10,   5,   5,   5,   5,   5,   0, -10],
    [-10,   0,   5,   0,   0,   0,   0, -10],
    [-20, -10, -10,  -5,  -5, -10, -10, -20]]

  const KingMiddleTable: seq<seq<int>> := [
    [-30, -40, -40, -50, -50, -40, -40, -30],
    [-30, -40, -40, -50, -50, -40, -40, -30],
    [-30, -40, -40, -50, -50, -40, -40, -30],
    [-30, -40, -40, -50, -50, -40, -40, -30],
    [-20, -30, -30, -40, -40, -30, -30, -20],
    [-10, -20, -20, -20, -20, -20, -20, -10],
    [20,  20,   0,   0,   0,   0,  20,  20],
    [20,  30,  10,   0,   0,  10,  30,  20]]

  const KingEndTable: seq<seq<int>> := [
    [-50, -40, -30, -20, -20, -30, -40, -50],
    [-40, -20, -10,   0,   0, -10, -20, -40],
    [-30, -10,   5,  10,  10,   5, -10, -30],
    [-20,   0,  10,  20,  20,  10,   0, -20],
    [-20,   0,  10,  20,  20,  10,   0, -20],
    [-30, -10,   5,  10,  10,   5, -10, -30],
    [-40, -20, -10,   0,   0, -10, -20, -40],
    [-50, -40, -30, -20, -20, -30, -40, -50]]

  /** An 8 by 8 table whose every entry lies in [lo, hi]. */
  predicate Within(t: seq<seq<int>>, lo: int, hi: int)
  {
    && |t| == 8 && (forall r | 0 <= r < 8 :: |t[r]| == 8)
    && forall r, c | 0 <= r < 8 && 0 <= c < 8 :: lo <= t[r][c] <= hi
  }

  predicate RowWithin(row: seq<int>, lo: int, hi: int)
  {
    |row| == 8 && forall c | 0 <= c < 8 :: lo <= row[c] <= hi
  }

  /** The table a piece kind reads; the king's depends on the endgame flag. */
  function Table(k: Kind, endgame: bool): seq<seq<int>>
  {
    match k
    case Pawn => PawnTable
    case Knight => KnightTable
    case Bishop => BishopTable
    case Rook => RookTable
    case Queen => QueenTable
    case King => if endgame then KingEndTable else KingMiddleTable
  }

  /** One table is 8 by 8 with entries in [-50, 50], row by row. */
  lemma TableWithin(t: seq<seq<int>>)
    requires |t| == 8 && forall r | 0 <= r < 8 :: RowWithin(t[r], -50, 50)
    ensures Within(t, -50, 50)
  {
  }

  lemma PawnTableWithin() ensures Within(PawnTable, -50, 50) { TableWithin(PawnTable); }
  lemma KnightTableWithin() ensures Within(KnightTable, -50, 50) { TableWithin(KnightTable); }
  lemma BishopTableWithin() ensures Within(BishopTable, -50, 50) { TableWithin(BishopTable); }
  lemma RookTableWithin() ensures Within(RookTable, -50, 50) { TableWithin(RookTable); }
  lemma QueenTableWithin() ensures Within(QueenTable, -50, 50) { TableWithin(QueenTable); }
  lemma KingEndTableWithin() ensures Within(KingEndTable, -50, 50) { TableWithin(KingEndTable); }
  lemma KingMiddleTableWithin() ensures Within(KingMiddleTable, -50, 50) { TableWithin(KingMiddleTable); }

  /** Every table is 8 by 8, and no bonus exceeds half a pawn either way. */
  lemma TablesWithin(k: Kind, endgame: bool)
    ensures Within(Table(k, endgame), -50, 50)
  {
    match k
    case Pawn => PawnTableWithin();
    case Knight => KnightTableWithin();
    case Bishop => BishopTableWithin();
    case Rook => RookTableWithin();
    case Queen => QueenTableWithin();
    case King => KingEndTableWithin(); KingMiddleTableWithin();
  }

  /** Row r, column c of the table for kind k. */
  function Entry(k: Kind, endgame: bool, r: int, c: int): (v: int)
    requires OnBoard(r, c)
    ensures -50 <= v <= 50
  {
    TablesWithin(k, endgame);
    Table(k, endgame)[r][c]
  }

  /** The square bonus of piece `pc` on row r, column c. */
  function Bonus(pc: Piece, r: int, c: int, endgame: bool): int
    requires OnBoard(r, c)
  {
    var row := if IsWhite(pc) then r else 7 - r;
    Entry(KindOf(pc), endgame, row, c)
  }

  /** The endgame test of `BetterSquares.evaluate`: no queen of either colour
      among the first n cells. */
  predicate NoQueenBefore(g: Grid, n: int)
    requires 0 <= n <= 64
  {
    forall i | 0 <= i < n :: g[i] != Some(WhiteQueen) && g[i] != Some(BlackQueen)
  }

  predicate Endgame(g: Grid)
  {
    NoQueenBefore(g, 64)
  }

  predicate IsQueen(q: Square)
  {
    q == Some(WhiteQueen) || q == Some(BlackQueen)
  }

  /** The endgame test read square by square. */
  lemma EndgameCells(g: Grid)
    ensures Endgame(g) <==> forall r, c | OnBoard(r, c) :: !IsQueen(At(g, r, c))
  {
    if !Endgame(g) {
      var i :| 0 <= i < 64 && IsQueen(g[i]);
      assert At(g, i / 8, i % 8) == g[i];
    }
  }

  // ------------------------------------------------------------ sums

  /** Which `evaluate`: material only, or `BetterSquares`' material plus
      square tables. */
  datatype Evaluator = Material | Positional

  /** What the cell on row r, column c adds to the score. */
  function CellValue(ev: Evaluator, g: Grid, endgame: bool, r: int, c: int): int
    requires OnBoard(r, c)
  {
    match At(g, r, c)
    case None => 0
    case Some(pc) =>
      match ev
      case Material => MaterialValue(pc)
      case Positional =>
        var s := PieceValue(pc) + Bonus(pc, r, c, endgame);
        if IsWhite(pc) then s else -s
  }

  /** The first n cells of row r. */
  function RowScore(ev: Evaluator, g: Grid, endgame: bool, r: int, n: int): int
    requires 0 <= r < 8 && 0 <= n <= 8
  {
    if n == 0 then 0 else RowScore(ev, g, endgame, r, n - 1) + CellValue(ev, g, endgame, r, n - 1)
  }

  /** The first `rows` rows, each in full. */
  function Score(ev: Evaluator, g: Grid, endgame: bool, rows: int): int
    requires 0 <= rows <= 8
  {
    if rows == 0 then 0 else Score(ev, g, endgame, rows - 1) + RowScore(ev, g, endgame, rows - 1, 8)
  }

  /** The evaluation of a grid: all 64 cells, with the king table chosen by
      the endgame test (which the material evaluator does not look at). */
  function Eval(ev: Evaluator, g: Grid): int
  {
    Score(ev, g, Endgame(g), 8)
  }

  // ------------------------------------------------------------ bounds

  lemma CellBound(ev: Evaluator, g: Grid, endgame: bool, r: int, c: int)
    requires OnBoard(r, c)
    ensures -KingValue <= CellValue(ev, g, endgame, r, c) <= KingValue
  {
    match At(g, r, c)
    case None =>
    case Some(pc) =>
      PieceValueIsUnsignedMaterial(pc);
  }

  lemma {:induction false} RowBound(ev: Evaluator, g: Grid, endgame: bool, r: int, n: int)
    requires 0 <= r < 8 && 0 <= n <= 8
    ensures -n * KingValue <= RowScore(ev, g, endgame, r, n) <= n * KingValue
  {
    if n > 0 {
      RowBound(ev, g, endgame, r, n - 1);
      CellBound(ev, g, endgame, r, n - 1);
    }
  }

  lemma {:induction false} ScoreBound(ev: Evaluator, g: Grid, endgame: bool, rows: int)
    requires 0 <= rows <= 8
    ensures -rows * 8 * KingValue <= Score(ev, g, endgame, rows) <= rows * 8 * KingValue
  {
    if rows > 0 {
      ScoreBound(ev, g, endgame, rows - 1);
      RowBound(ev, g, endgame, rows - 1, 8);
    }
  }

  /** Both evaluators stay within 64 kings of zero. */
  lemma EvalBounded(ev: Evaluator, g: Grid)
    ensures -EvalBound <= Eval(ev, g) <= EvalBound
  {
    ScoreBound(ev, g, Endgame(g), 8);
  }

  // ------------------------------------------------------------ colour symmetry

  function SwapSquare(q: Square): Square
  {
    match q
    case None => None
    case Some(pc) => Some(Swap(pc))
  }

  /** The board seen from the other side: rows reversed, colours exchanged. */
  function Mirror(g: Grid): (h: Grid)
    ensures forall r, c | OnBoard(r, c) :: At(h, r, c) == SwapSquare(At(g, 7 - r, c))
  {
    var h: Grid := seq(64, i requires 0 <= i < 64 => SwapSquare(g[(7 - i / 8) * 8 + i % 8]));
    assert forall r, c | OnBoard(r, c) :: (r * 8 + c) / 8 == r && (r * 8 + c) % 8 == c;
    h
  }

  /** A grid is determined by its 64 cells read through `At`. */
  lemma GridExt(g: Grid, h: Grid)
    requires forall r, c | OnBoard(r, c) :: At(g, r, c) == At(h, r, c)
    ensures g == h
  {
    forall i | 0 <= i < 64
      ensures g[i] == h[i]
    {
      assert OnBoard(i / 8, i % 8) && i == (i / 8) * 8 + i % 8;
    }
  }

  lemma CellMirror(ev: Evaluator, g: Grid, endgame: bool, r: int, c: int)
    requires OnBoard(r, c)
    ensures CellValue(ev, Mirror(g), endgame, r, c) == -CellValue(ev, g, endgame, 7 - r, c)
  {
    match At(g, 7 - r, c)
    case None =>
    case Some(pc) =>
      SwapValues(pc);
      assert Bonus(Swap(pc), r, c, endgame) == Bonus(pc, 7 - r, c, endgame);
  }

  lemma {:induction false} RowMirror(ev: Evaluator, g: Grid, endgame: bool, r: int, n: int)
    requires 0 <= r < 8 && 0 <= n <= 8
    ensures RowScore(ev, Mirror(g), endgame, r, n) == -RowScore(ev, g, endgame, 7 - r, n)
  {
    if n > 0 {
      RowMirror(ev, g, endgame, r, n - 1);
      CellMirror(ev, g, endgame, r, n - 1);
    }
  }

  /** The eight rows of a score, written out. */
  lemma ScoreRows(ev: Evaluator, g: Grid, e: bool)
    ensures Score(ev, g, e, 8)
         == RowScore(ev, g, e, 0, 8) + RowScore(ev, g, e, 1, 8) + RowScore(ev, g, e, 2, 8)
          + RowScore(ev, g, e, 3, 8) + RowScore(ev, g, e, 4, 8) + RowScore(ev, g, e, 5, 8)
          + RowScore(ev, g, e, 6, 8) + RowScore(ev, g, e, 7, 8)
  {
    assert Score(ev, g, e, 1) == RowScore(ev, g, e, 0, 8);
    assert Score(ev, g, e, 3) == Score(ev, g, e, 1) + RowScore(ev, g, e, 1, 8) + RowScore(ev, g, e, 2, 8);
    assert Score(ev, g, e, 5) == Score(ev, g, e, 3) + RowScore(ev, g, e, 3, 8) + RowScore(ev, g, e, 4, 8);
    assert Score(ev, g, e, 7) == Score(ev, g, e, 5) + RowScore(ev, g, e, 5, 8) + RowScore(ev, g, e, 6, 8);
  }

  /** Exchanging colours keeps the queens, so the endgame test. */
  lemma EndgameMirror(g: Grid)
    ensures Endgame(Mirror(g)) == Endgame(g)
  {
    EndgameCells(g);
    EndgameCells(Mirror(g));
    if !Endgame(g) {
      var r, c :| OnBoard(r, c) && IsQueen(At(g, r, c));
      assert At(Mirror(g), 7 - r, c) == SwapSquare(At(g, r, c));
    }
  }

  /** Seen from the other side, a position scores the negation: both
      evaluators are colour-symmetric. */
  lemma EvalMirror(ev: Evaluator, g: Grid)
    ensures Eval(ev, Mirror(g)) == -Eval(ev, g)
  {
    var e := Endgame(g);
    EndgameMirror(g);
    ScoreRows(ev, g, e);
    ScoreRows(ev, Mirror(g), e);
    forall r | 0 <= r < 8
      ensures RowScore(ev, Mirror(g), e, r, 8) == -RowScore(ev, g, e, 7 - r, 8)
    {
      RowMirror(ev, g, e, r, 8);
    }
  }

  lemma StartCellMirror(r: int, c: int)
    requires OnBoard(r, c)
    ensures SwapSquare(StartCell(7 - r, c)) == StartCell(r, c)
  {
    if r == 0 || r == 7 {
      var k := KindOf(BackRank(true, c));
      assert BackRank(r == 0, c) == Make(r == 0, k) && BackRank(r != 0, c) == Make(r != 0, k);
      ColourAndKindDetermine(Swap(BackRank(r != 0, c)));
    }
  }

  /** The start position is its own mirror image, so it scores 0. */
  lemma StartBalanced(ev: Evaluator)
    ensures Eval(ev, StartGrid()) == 0
  {
    var s := StartGrid();
    forall r, c | OnBoard(r, c)
      ensures At(Mirror(s), r, c) == At(s, r, c)
    {
      StartCellMirror(r, c);
    }
    GridExt(Mirror(s), s);
    EvalMirror(ev, s);
  }

  // ------------------------------------------------------------ the methods

  /** `evaluate` of the material engines: every occupied cell adds its
      signed value. */
  method EvaluateMaterial(b: Board) returns (score: int)
    requires b.Valid()
    ensures score == Eval(Material, b.cells)
  {
    ghost var g, e := b.cells, Endgame(b.cells);
    score := 0;
    for r := 0 to 8
      invariant score == Score(Material, g, e, r)
    {
      for c := 0 to 8
        invariant score == Score(Material, g, e, r) + RowScore(Material, g, e, r, c)
      {
        var p := b.grid[r, c];
        if p == None {
          continue;
        }
        score := score + MaterialValue(p.value);
      }
    }
  }

  /** `BetterSquares.evaluate`: first the endgame flag (a scan for a queen,
      stopping at the first), then material plus the square bonus, the
      black pieces reading their table upside down. */
  method EvaluatePositional(b: Board) returns (score: int)
    requires b.Valid()
    ensures score == Eval(Positional, b.cells)
  {
    ghost var g := b.cells;
    score := 0;
    var endgame := true;
    var r := 0;
    while r < 8 && endgame
      invariant 0 <= r <= 8
      invariant endgame ==> NoQueenBefore(g, r * 8)
      invariant !endgame ==> !Endgame(g)
    {
      for c := 0 to 8
        invariant endgame && NoQueenBefore(g, r * 8 + c)
      {
        var p := b.grid[r, c];
        if p == Some(WhiteQueen) || p == Some(BlackQueen) {
          assert g[r * 8 + c] == p;
          endgame := false;
          break;
        }
      }
      r := r + 1;
    }
    assert endgame == Endgame(g);
    for r := 0 to 8
      invariant score == Score(Positional, g, endgame, r)
    {
      for c := 0 to 8
        invariant score == Score(Positional, g, endgame, r) + RowScore(Positional, g, endgame, r, c)
      {
        var p := b.grid[r, c];
        if p == None {
          continue;
        }
        var white := IsWhite(p.value);
        var base := PieceValue(p.value);
        var pst := Entry(KindOf(p.value), endgame, if white then r else 7 - r, c);
        var pieceScore := base + pst;
        score := score + if white then pieceScore else -pieceScore;
      }
    }
  }
}
