/** The pure specification of `ai.MoveGenerator`: pseudo-legal moves per piece
    kind, in the order the Java loops append them, and the king-safety filter
    that keeps a move only if the mover's king is not attacked afterwards. */
module Generation {
  import opened Wrappers
  import opened Pieces
  import opened Moves
  import opened Positions

  predicate OnBoardMove(m: Move)
  {
    OnBoard(m.fromRow, m.fromCol) && OnBoard(m.toRow, m.toCol)
  }

  /** A move without promotion, Java's four-argument constructor. */
  function Step(r: int, c: int, r2: int, c2: int): Move
  {
    Move(r, c, r2, c2, None)
  }

  /** Every move starts on (r, c) and stays on the board. */
  predicate AllFrom(ms: seq<Move>, r: int, c: int)
  {
    forall m | m in ms :: OnBoardMove(m) && m.fromRow == r && m.fromCol == c
  }

  /** A piece of colour `white` may enter (r, c): it is empty or holds the other colour. */
  predicate Enterable(g: Grid, r: int, c: int, white: bool)
    requires OnBoard(r, c)
  {
    At(g, r, c).None? || IsWhite(At(g, r, c).value) != white
  }

  /** The rank a pawn of that colour promotes on. */
  function LastRank(white: bool): int
  {
    if white then 7 else 0
  }

  /** What `generateLegalMoves(board, white)` needs to run without an index
      error: no pawn of that colour on its last rank (row r + dir is read
      unchecked), and an en-passant target on a real row has a real column. */
  predicate Generable(p: Position, white: bool)
  {
    && (forall c | 0 <= c < 8 :: At(p.grid, LastRank(white), c) != Some(Make(white, Pawn)))
    && (0 <= p.enPassantRow < 8 ==> 0 <= p.enPassantCol < 8)
  }

  /** The positions that arise in play: both colours generable, and the
      en-passant target either absent (-1, -1) or on row 2 or 5. */
  predicate Sound(p: Position)
  {
    && Generable(p, true) && Generable(p, false)
    && ((p.enPassantRow == -1 && p.enPassantCol == -1)
        || ((p.enPassantRow == 2 || p.enPassantRow == 5) && 0 <= p.enPassantCol < 8))
  }

  // ---------------------------------------------------------------- knight, king steps

  /** The single-step moves over the first n offsets of `deltas`
      (`addKnightMoves`, and the step part of `addKingMoves`). */
  function Jumps(g: Grid, r: int, c: int, white: bool, deltas: seq<(int, int)>, n: nat): (ms: seq<Move>)
    requires OnBoard(r, c) && n <= |deltas|
    ensures AllFrom(ms, r, c)
    ensures forall m | m in ms :: m.promotion.None? && Enterable(g, m.toRow, m.toCol, white)
    ensures forall m | m in ms :: exists i | 0 <= i < n :: m.toRow == r + deltas[i].0 && m.toCol == c + deltas[i].1
  {
    if n == 0 then []
    else
      var r2, c2 := r + deltas[n - 1].0, c + deltas[n - 1].1;
      Jumps(g, r, c, white, deltas, n - 1)
      + (if OnBoard(r2, c2) && Enterable(g, r2, c2, white) then [Step(r, c, r2, c2)] else [])
  }

  // ---------------------------------------------------------------- sliders

  /** The walk of `addSliding` along one direction from (r2, c2) on: empty
      squares are added and passed, the first occupied square is added when it
      is an enemy, and the walk stops there. */
  function Ray(g: Grid, r: int, c: int, white: bool, r2: int, c2: int, dr: int, dc: int): seq<Move>
    requires OnBoard(r, c) && UnitStep(dr, dc)
    decreases StepsLeft(r2, c2, dr, dc)
  {
    if !OnBoard(r2, c2) then []
    else
      var here := if Enterable(g, r2, c2, white) then [Step(r, c, r2, c2)] else [];
      if At(g, r2, c2).Some? then here
      else here + Ray(g, r, c, white, r2 + dr, c2 + dc, dr, dc)
  }

  /** A ray's moves all start on (r, c), promote nothing and enter their
      squares legally. */
  lemma {:induction false} RayMoves(g: Grid, r: int, c: int, white: bool, r2: int, c2: int, dr: int, dc: int)
    requires OnBoard(r, c) && UnitStep(dr, dc)
    ensures var ms := Ray(g, r, c, white, r2, c2, dr, dc);
      AllFrom(ms, r, c) && forall m | m in ms :: m.promotion.None? && Enterable(g, m.toRow, m.toCol, white)
    decreases StepsLeft(r2, c2, dr, dc)
  {
    if OnBoard(r2, c2) && At(g, r2, c2).None? {
      StepsLeftDecreases(r2, c2, dr, dc);
      RayMoves(g, r, c, white, r2 + dr, c2 + dc, dr, dc);
    }
  }

  /** Every square entered before the last one is on the board and empty. */
  predicate PassesEmpty(g: Grid, ms: seq<Move>)
  {
    forall i | 0 <= i < |ms| - 1 :: OnBoard(ms[i].toRow, ms[i].toCol) && At(g, ms[i].toRow, ms[i].toCol).None?
  }

  /** The last square entered is on the board and holds q. */
  predicate EndsOn(g: Grid, ms: seq<Move>, q: Square)
  {
    |ms| > 0 && OnBoard(ms[|ms| - 1].toRow, ms[|ms| - 1].toCol) && At(g, ms[|ms| - 1].toRow, ms[|ms| - 1].toCol) == q
  }

  /** A ray passes only empty squares, and an enemy first met along it is
      the last square entered. */
  lemma {:induction false} RayStops(g: Grid, r: int, c: int, white: bool, r2: int, c2: int, dr: int, dc: int)
    requires OnBoard(r, c) && UnitStep(dr, dc)
    ensures PassesEmpty(g, Ray(g, r, c, white, r2, c2, dr, dc))
    ensures var q := FirstOccupied(g, r2, c2, dr, dc);
      q.Some? && IsWhite(q.value) != white ==> EndsOn(g, Ray(g, r, c, white, r2, c2, dr, dc), q)
    decreases StepsLeft(r2, c2, dr, dc)
  {
    if OnBoard(r2, c2) && At(g, r2, c2).None? {
      StepsLeftDecreases(r2, c2, dr, dc);
      RayStops(g, r, c, white, r2 + dr, c2 + dc, dr, dc);
      var rest := Ray(g, r, c, white, r2 + dr, c2 + dc, dr, dc);
      var ms := Ray(g, r, c, white, r2, c2, dr, dc);
      assert ms == [Step(r, c, r2, c2)] + rest;
      forall i | 0 <= i < |ms| - 1
        ensures OnBoard(ms[i].toRow, ms[i].toCol) && At(g, ms[i].toRow, ms[i].toCol).None?
      {
        if i > 0 {
          assert ms[i] == rest[i - 1];
        }
      }
    }
  }

  predicate UnitSteps(dirs: seq<(int, int)>)
  {
    forall i | 0 <= i < |dirs| :: UnitStep(dirs[i].0, dirs[i].1)
  }

  /** `addSliding` over the first n directions of `dirs`. */
  function Slides(g: Grid, r: int, c: int, white: bool, dirs: seq<(int, int)>, n: nat): (ms: seq<Move>)
    requires OnBoard(r, c) && n <= |dirs| && UnitSteps(dirs)
    ensures AllFrom(ms, r, c)
    ensures forall m | m in ms :: m.promotion.None? && Enterable(g, m.toRow, m.toCol, white)
  {
    if n == 0 then []
    else
      var d := dirs[n - 1];
      RayMoves(g, r, c, white, r + d.0, c + d.1, d.0, d.1);
      Slides(g, r, c, white, dirs, n - 1) + Ray(g, r, c, white, r + d.0, c + d.1, d.0, d.1)
  }

  // ---------------------------------------------------------------- castling

  function HomeRow(white: bool): int
  {
    if white then 0 else 7
  }

  /** The castling part of `addKingMoves`.  The rook's presence is not checked. */
  function Castles(p: Position, r: int, c: int, white: bool): (ms: seq<Move>)
    requires OnBoard(r, c)
    ensures AllFrom(ms, r, c)
  {
    var g := p.grid;
    var home := HomeRow(white);
    if r == home && c == 4 && !IsSquareAttacked(g, r, c, !white) then
      var kingSide := (if white then p.whiteCastleKing else p.blackCastleKing)
                      && At(g, home, 5).None? && At(g, home, 6).None?
                      && !IsSquareAttacked(g, home, 5, !white) && !IsSquareAttacked(g, home, 6, !white);
      var queenSide := (if white then p.whiteCastleQueen else p.blackCastleQueen)
                       && At(g, home, 1).None? && At(g, home, 2).None? && At(g, home, 3).None?
                       && !IsSquareAttacked(g, home, 3, !white) && !IsSquareAttacked(g, home, 2, !white);
      (if kingSide then [Step(r, c, home, 6)] else []) + (if queenSide then [Step(r, c, home, 2)] else [])
    else []
  }

  // ---------------------------------------------------------------- pawns

  /** The four promotions, in the order queen, rook, bishop, knight. */
  function Promotions(r: int, c: int, r2: int, c2: int, white: bool): seq<Move>
  {
    [Move(r, c, r2, c2, Some(Make(white, Queen))), Move(r, c, r2, c2, Some(Make(white, Rook))),
     Move(r, c, r2, c2, Some(Make(white, Bishop))), Move(r, c, r2, c2, Some(Make(white, Knight)))]
  }

  /** A move to (r2, c2): the four promotions on row 7 or 0, one move elsewhere. */
  function PawnTo(r: int, c: int, r2: int, c2: int, white: bool): seq<Move>
  {
    if r2 == 7 || r2 == 0 then Promotions(r, c, r2, c2, white) else [Step(r, c, r2, c2)]
  }

  function Direction(white: bool): int
  {
    if white then 1 else -1
  }

  function StartRow(white: bool): int
  {
    if white then 1 else 6
  }

  /** The single and double advance. */
  function Advances(g: Grid, r: int, c: int, white: bool): (ms: seq<Move>)
    requires OnBoard(r, c) && OnBoard(r + Direction(white), c)
    ensures AllFrom(ms, r, c)
  {
    var dir := Direction(white);
    var r1 := r + dir;
    if At(g, r1, c).None? then
      PawnTo(r, c, r1, c, white)
      + (if r == StartRow(white) && At(g, r1 + dir, c).None? then [Step(r, c, r1 + dir, c)] else [])
    else []
  }

  /** The diagonal capture towards column c + dc. */
  function Capture(g: Grid, r: int, c: int, white: bool, dc: int): (ms: seq<Move>)
    requires OnBoard(r, c) && OnBoard(r + Direction(white), c)
    ensures AllFrom(ms, r, c)
  {
    var r1, c1 := r + Direction(white), c + dc;
    if !(0 <= c1 < 8) then []
    else if At(g, r1, c1).Some? && IsWhite(At(g, r1, c1).value) != white then PawnTo(r, c, r1, c1, white)
    else []
  }

  /** The en-passant moves: only onto the target, only from an adjacent file,
      only when the target is on the row in front. */
  function EnPassants(p: Position, r: int, c: int, white: bool): (ms: seq<Move>)
    requires OnBoard(r, c) && OnBoard(r + Direction(white), c)
    requires 0 <= p.enPassantRow < 8 ==> 0 <= p.enPassantCol < 8
    ensures AllFrom(ms, r, c)
  {
    var r1 := r + Direction(white);
    if p.enPassantRow != -1 && p.enPassantRow == r1 then
      (if c - 1 == p.enPassantCol then [Step(r, c, r1, p.enPassantCol)] else [])
      + (if c + 1 == p.enPassantCol then [Step(r, c, r1, p.enPassantCol)] else [])
    else []
  }

  /** `addPawnMoves`: advances, the two captures, then en passant. */
  function PawnMoves(p: Position, r: int, c: int, white: bool): (ms: seq<Move>)
    requires OnBoard(r, c) && OnBoard(r + Direction(white), c)
    requires 0 <= p.enPassantRow < 8 ==> 0 <= p.enPassantCol < 8
    ensures AllFrom(ms, r, c)
  {
    Advances(p.grid, r, c, white) + Capture(p.grid, r, c, white, -1) + Capture(p.grid, r, c, white, 1)
    + EnPassants(p, r, c, white)
  }

  // ---------------------------------------------------------------- all pieces

  /** A piece stands on (r, c), and if it is a pawn it is not on its last rank
      and any en-passant target on a real row has a real column. */
  predicate PieceReady(p: Position, r: int, c: int)
  {
    && OnBoard(r, c) && At(p.grid, r, c).Some?
    && var pc := At(p.grid, r, c).value;
       KindOf(pc) == Pawn ==>
         OnBoard(r + Direction(IsWhite(pc)), c) && (0 <= p.enPassantRow < 8 ==> 0 <= p.enPassantCol < 8)
  }

  /** A square holding a piece of a generable colour is ready. */
  lemma GenerableReady(p: Position, white: bool, r: int, c: int)
    requires Generable(p, white) && OnBoard(r, c)
    requires At(p.grid, r, c).Some? && IsWhite(At(p.grid, r, c).value) == white
    ensures PieceReady(p, r, c)
  {
    var pc := At(p.grid, r, c).value;
    if KindOf(pc) == Pawn {
      assert pc == Make(white, Pawn);
      assert At(p.grid, LastRank(white), c) != Some(Make(white, Pawn));
    }
  }

  /** The pseudo-legal moves of the piece on (r, c), by kind. */
  function PieceMoves(p: Position, r: int, c: int): (ms: seq<Move>)
    requires PieceReady(p, r, c)
    ensures AllFrom(ms, r, c)
  {
    var g := p.grid;
    var pc := At(g, r, c).value;
    var white := IsWhite(pc);
    match KindOf(pc)
    case Pawn => PawnMoves(p, r, c, white)
    case Knight => Jumps(g, r, c, white, KnightDeltas, 8)
    case Bishop => Slides(g, r, c, white, BishopDirs, 4)
    case Rook => Slides(g, r, c, white, RookDirs, 4)
    case Queen => Slides(g, r, c, white, QueenDirs, 8)
    case King => Jumps(g, r, c, white, KingDeltas, 8) + Castles(p, r, c, white)
  }

  /** The moves of square (r, c) when it holds a piece of the requested colour. */
  function SquareMoves(p: Position, white: bool, r: int, c: int): (ms: seq<Move>)
    requires OnBoard(r, c) && Generable(p, white)
    ensures AllFrom(ms, r, c)
    ensures ms != [] ==> At(p.grid, r, c).Some? && IsWhite(At(p.grid, r, c).value) == white
  {
    match At(p.grid, r, c)
    case None => []
    case Some(pc) =>
      if white && !IsWhite(pc) then []
      else if !white && !IsBlack(pc) then []
      else
        GenerableReady(p, white, r, c);
        PieceMoves(p, r, c)
  }

  /** The pseudo-legal list after the square loop has visited the squares
      of `visited`, the grid's first cells in row-major order. */
  function Pseudo(p: Position, white: bool, visited: seq<Square>): (ms: seq<Move>)
    requires visited <= p.grid && Generable(p, white)
    ensures forall m | m in ms ::
              OnBoardMove(m) && At(p.grid, m.fromRow, m.fromCol).Some? && IsWhite(At(p.grid, m.fromRow, m.fromCol).value) == white
    decreases |visited|
  {
    if visited == [] then []
    else
      var i := |visited| - 1;
      Pseudo(p, white, visited[..i]) + SquareMoves(p, white, i / 8, i % 8)
  }

  // ---------------------------------------------------------------- filter

  /** The filter's test: on the grid `makeMove` leaves on a copy, the first
      king of the mover's colour (or (-1, -1)) is not attacked by the other side. */
  predicate KingSafe(p: Position, m: Move, white: bool)
    requires OnBoardMove(m)
  {
    var g := GridAfter(p.grid, m);
    var k := FindKing(g, white);
    !IsSquareAttacked(g, k.0, k.1, !white)
  }

  /** The filter over a list of candidates, keeping their order. */
  function Filter(p: Position, white: bool, ms: seq<Move>): (kept: seq<Move>)
    requires forall m | m in ms :: OnBoardMove(m)
    ensures forall m | m in kept :: m in ms && KingSafe(p, m, white)
    ensures forall m | m in ms && KingSafe(p, m, white) :: m in kept
  {
    if |ms| == 0 then []
    else
      var last := ms[|ms| - 1];
      var rest := Filter(p, white, ms[..|ms| - 1]);
      assert ms == ms[..|ms| - 1] + [last];
      rest + (if KingSafe(p, last, white) then [last] else [])
  }

  /** `generateLegalMoves(board, white)`. */
  function LegalMoves(p: Position, white: bool): (ms: seq<Move>)
    requires Generable(p, white)
    ensures forall m | m in ms ::
              OnBoardMove(m) && KingSafe(p, m, white)
              && At(p.grid, m.fromRow, m.fromCol).Some? && IsWhite(At(p.grid, m.fromRow, m.fromCol).value) == white
  {
    Filter(p, white, Pseudo(p, white, p.grid))
  }
}
