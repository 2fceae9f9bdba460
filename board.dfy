/** `Jogo.Board` as a class: an 8x8 array of cells plus the scalar fields and
    the repetition table, each method proved to leave the state the pure model
    in `Positions` prescribes. */
module Boards {
  import opened Wrappers
  import opened Pieces
  import opened Moves
  import opened Positions
  import opened Generation
  import opened FenLoad
  import opened Rules

  /** A position whose every field is the one `makeMove` computes is the
      moved position. */
  lemma MovedFields(p: Position, m: Move, q: Position)
    requires OnBoardMove(m)
    requires q.grid == GridAfter(p.grid, m)
    requires (q.whiteCastleKing, q.whiteCastleQueen, q.blackCastleKing, q.blackCastleQueen) == RightsAfter(p, m)
    requires (q.enPassantRow, q.enPassantCol) == TargetAfter(p.grid, m)
    requires q.halfmoveClock == ClockAfter(p, m)
    requires q.whiteToMove == !p.whiteToMove && q.repetitionCounts == p.repetitionCounts
    ensures q == Moved(p, m)
  {
  }

  /** A square holding `piece` with none before it in row-major order is
      the one the search finds. */
  lemma FirstFound(g: Grid, piece: Piece, r: int, c: int)
    requires OnBoard(r, c) && At(g, r, c) == Some(piece)
    requires forall j | 0 <= j < r * 8 + c :: g[j] != Some(piece)
    ensures Locate(g, piece) == (r, c)
  {
    var k := IndexOf(g, piece);
    assert k == r * 8 + c;
  }

  class Board {
    var grid: array2<Square>
    var enPassantRow: int
    var enPassantCol: int
    var whiteCastleKing: bool
    var whiteCastleQueen: bool
    var blackCastleKing: bool
    var blackCastleQueen: bool
    var whiteToMove: bool
    var halfmoveClock: int
    var repetitionCounts: map<string, int>

    /** The cells of the array as a value, kept in step with every store. */
    ghost var cells: Grid

    ghost predicate Valid()
      reads this`grid, this`cells, grid
    {
      && grid.Length0 == 8 && grid.Length1 == 8
      && forall r, c | OnBoard(r, c) :: grid[r, c] == At(cells, r, c)
    }

    /** The board as a value. */
    ghost function State(): Position
      reads this
    {
      Position(cells, enPassantRow, enPassantCol, whiteCastleKing, whiteCastleQueen,
               blackCastleKing, blackCastleQueen, whiteToMove, halfmoveClock, repetitionCounts)
    }

    /** One array store, mirrored on the cells. */
    method Write(r: int, c: int, x: Square)
      requires Valid() && OnBoard(r, c)
      modifies this`cells, grid
      ensures Valid() && cells == Put(old(cells), r, c, x)
    {
      grid[r, c] := x;
      cells := Put(cells, r, c, x);
    }

    /** `setupStartPosition`: the back ranks, the pawn rows and four empty rows. */
    method SetupStartPosition()
      requires grid.Length0 == 8 && grid.Length1 == 8
      modifies this`cells, grid
      ensures Valid() && cells == StartGrid()
    {
      for c := 0 to 8
        invariant forall c' | 0 <= c' < c :: grid[0, c'] == StartCell(0, c') && grid[7, c'] == StartCell(7, c')
      {
        grid[0, c] := Some(BackRank(true, c));
        grid[7, c] := Some(BackRank(false, c));
      }
      for c := 0 to 8
        invariant forall c' | 0 <= c' < 8 :: grid[0, c'] == StartCell(0, c') && grid[7, c'] == StartCell(7, c')
        invariant forall c' | 0 <= c' < c :: grid[1, c'] == StartCell(1, c')
      {
        grid[1, c] := Some(WhitePawn);
      }
      for r := 2 to 6
        invariant forall c' | 0 <= c' < 8 :: grid[0, c'] == StartCell(0, c') && grid[7, c'] == StartCell(7, c')
        invariant forall c' | 0 <= c' < 8 :: grid[1, c'] == StartCell(1, c')
        invariant forall r', c' | 2 <= r' < r && 0 <= c' < 8 :: grid[r', c'] == None
      {
        for c := 0 to 8
          invariant forall c' | 0 <= c' < 8 :: grid[0, c'] == StartCell(0, c') && grid[7, c'] == StartCell(7, c')
          invariant forall c' | 0 <= c' < 8 :: grid[1, c'] == StartCell(1, c')
          invariant forall r', c' | 2 <= r' < r && 0 <= c' < 8 :: grid[r', c'] == None
          invariant forall c' | 0 <= c' < c :: grid[r, c'] == None
        {
          grid[r, c] := None;
        }
      }
      for c := 0 to 8
        invariant forall r', c' | OnBoard(r', c') && r' != 6 :: grid[r', c'] == StartCell(r', c')
        invariant forall c' | 0 <= c' < c :: grid[6, c'] == StartCell(6, c')
      {
        grid[6, c] := Some(BlackPawn);
      }
      cells := StartGrid();
    }

    /** `Board()`: the start position with all castling rights, no en-passant
        target, white to move, clock 0, and its FEN counted once. */
    constructor ()
      ensures Valid() && fresh(grid)
      ensures State() == StartPosition()
    {
      grid := new Square[8, 8];
      new;
      SetupStartPosition();
      StartFields();
    }

    /** The rest of `Board()`: the scalar fields of the start position and the
        table counting its FEN once. */
    method StartFields()
      requires Valid() && cells == StartGrid()
      modifies this`whiteCastleKing, this`whiteCastleQueen, this`blackCastleKing, this`blackCastleQueen
      modifies this`enPassantRow, this`enPassantCol, this`whiteToMove, this`halfmoveClock, this`repetitionCounts
      ensures Valid() && State() == StartPosition()
    {
      whiteCastleKing, whiteCastleQueen := true, true;
      blackCastleKing, blackCastleQueen := true, true;
      enPassantRow, enPassantCol := -1, -1;
      whiteToMove := true;
      halfmoveClock := 0;
      repetitionCounts := map[];
      ghost var p0 := State();
      assert p0 == Position(StartGrid(), -1, -1, true, true, true, true, true, 0, map[]);
      var fen := GenerateFen();
      repetitionCounts := map[fen := 1];
    }

    /** The copy constructor: a fresh array with the same cells and the same
        scalar fields and table. */
    constructor Copy(other: Board)
      requires other.Valid()
      ensures Valid() && fresh(grid)
      ensures State() == other.State()
    {
      var a := new Square[8, 8];
      for r := 0 to 8
        invariant forall r', c' | 0 <= r' < r && 0 <= c' < 8 :: a[r', c'] == other.grid[r', c']
      {
        for c := 0 to 8
          invariant forall r', c' | 0 <= r' < r && 0 <= c' < 8 :: a[r', c'] == other.grid[r', c']
          invariant forall c' | 0 <= c' < c :: a[r, c'] == other.grid[r, c']
        {
          a[r, c] := other.grid[r, c];
        }
      }
      grid := a;
      whiteCastleKing, whiteCastleQueen := other.whiteCastleKing, other.whiteCastleQueen;
      blackCastleKing, blackCastleQueen := other.blackCastleKing, other.blackCastleQueen;
      enPassantRow, enPassantCol := other.enPassantRow, other.enPassantCol;
      whiteToMove := other.whiteToMove;
      halfmoveClock := other.halfmoveClock;
      repetitionCounts := other.repetitionCounts;
      cells := other.cells;
    }

    /** The castling-rights part of `makeMove`. */
    method UpdateCastlingRights(piece: Square, m: Move)
      requires Valid() && OnBoardMove(m) && piece == At(cells, m.fromRow, m.fromCol)
      modifies this`whiteCastleKing, this`whiteCastleQueen, this`blackCastleKing, this`blackCastleQueen
      ensures (whiteCastleKing, whiteCastleQueen, blackCastleKing, blackCastleQueen) == RightsAfter(old(State()), m)
    {
      if piece == Some(WhiteKing) {
        whiteCastleKing, whiteCastleQueen := false, false;
      }
      if piece == Some(BlackKing) {
        blackCastleKing, blackCastleQueen := false, false;
      }
      if piece == Some(WhiteRook) {
        if m.fromRow == 0 && m.fromCol == 0 { whiteCastleQueen := false; }
        if m.fromRow == 0 && m.fromCol == 7 { whiteCastleKing := false; }
      }
      if piece == Some(BlackRook) {
        if m.fromRow == 7 && m.fromCol == 0 { blackCastleQueen := false; }
        if m.fromRow == 7 && m.fromCol == 7 { blackCastleKing := false; }
      }
    }

    /** The en-passant-target part of `makeMove`. */
    method UpdateEnPassantTarget(piece: Square, m: Move)
      requires Valid() && OnBoardMove(m) && piece == At(cells, m.fromRow, m.fromCol)
      modifies this`enPassantRow, this`enPassantCol
      ensures (enPassantRow, enPassantCol) == TargetAfter(cells, m)
    {
      if piece == Some(WhitePawn) || piece == Some(BlackPawn) {
        var delta := m.toRow - m.fromRow;
        if Abs(delta) == 2 {
          enPassantRow := (m.fromRow + m.toRow) / 2;
          enPassantCol := m.fromCol;
        } else {
          enPassantRow, enPassantCol := -1, -1;
        }
      } else {
        enPassantRow, enPassantCol := -1, -1;
      }
    }

    /** The grid part of `makeMove`: en-passant removal, castling rook,
        destination, source.  Returns the captured piece, if any. */
    method MovePieces(piece: Square, m: Move) returns (captured: Square)
      requires Valid() && OnBoardMove(m) && piece == At(cells, m.fromRow, m.fromCol)
      modifies this`cells, grid
      ensures Valid() && cells == GridAfter(old(cells), m)
      ensures captured.Some? == Captures(old(cells), m)
    {
      ghost var g := cells;
      captured := grid[m.toRow, m.toCol];
      if (piece == Some(WhitePawn) || piece == Some(BlackPawn)) && m.fromCol != m.toCol && captured.None? {
        captured := grid[m.fromRow, m.toCol];
        Write(m.fromRow, m.toCol, None);
      }
      assert cells == AfterCapture(g, m);
      if piece == Some(WhiteKing) || piece == Some(BlackKing) {
        if Abs(m.toCol - m.fromCol) == 2 {
          var home := m.fromRow;
          if m.toCol == 6 {
            var rook := grid[home, 7];
            Write(home, 5, rook);
            Write(home, 7, None);
          } else {
            var rook := grid[home, 0];
            Write(home, 3, rook);
            Write(home, 0, None);
          }
        }
      }
      assert cells == AfterRook(g, m);
      if (piece == Some(WhitePawn) || piece == Some(BlackPawn)) && m.promotion.Some? {
        Write(m.toRow, m.toCol, m.promotion);
        Write(m.fromRow, m.fromCol, None);
      } else {
        Write(m.toRow, m.toCol, piece);
        Write(m.fromRow, m.fromCol, None);
      }
    }

    /** `makeMove` on a move with both squares on the board. */
    method MakeMove(m: Move)
      requires Valid() && OnBoardMove(m)
      modifies this, grid
      ensures Valid() && grid == old(grid)
      ensures State() == Apply(old(State()), m)
    {
      Advance(m);
      CountCurrent();
    }

    /** Everything `makeMove` does before it counts the new FEN. */
    method Advance(m: Move)
      requires Valid() && OnBoardMove(m)
      modifies this`cells, grid, this`whiteCastleKing, this`whiteCastleQueen, this`blackCastleKing, this`blackCastleQueen
      modifies this`enPassantRow, this`enPassantCol, this`whiteToMove, this`halfmoveClock
      ensures Valid() && State() == Moved(old(State()), m)
    {
      ghost var p := State();
      var piece := grid[m.fromRow, m.fromCol];
      UpdateCastlingRights(piece, m);
      UpdateEnPassantTarget(piece, m);
      var captured := MovePieces(piece, m);
      UpdateClock(p, piece, m, captured.Some?);
      whiteToMove := !whiteToMove;
      MovedFields(p, m, State());
    }

    /** The half-move-clock part of `makeMove`: reset by a pawn changing row
        or by a capture, else one more. */
    method UpdateClock(ghost p: Position, piece: Square, m: Move, didCap: bool)
      requires OnBoardMove(m) && piece == At(p.grid, m.fromRow, m.fromCol)
      requires didCap == Captures(p.grid, m) && halfmoveClock == p.halfmoveClock
      modifies this`halfmoveClock
      ensures halfmoveClock == ClockAfter(p, m)
    {
      var pawnMove := (piece == Some(WhitePawn) || piece == Some(BlackPawn)) && m.fromRow != m.toRow;
      halfmoveClock := if pawnMove || didCap then 0 else halfmoveClock + 1;
    }

    /** The tail of `makeMove`: the FEN of the current state counted once more. */
    method CountCurrent()
      requires Valid()
      modifies this`repetitionCounts
      ensures Valid() && State() == Counted(old(State()))
    {
      var fen := GenerateFen();
      var count := if fen in repetitionCounts then repetitionCounts[fen] else 0;
      repetitionCounts := repetitionCounts[fen := count + 1];
      assert State() == CountedAs(old(State()), fen);
    }

    /** One row of `generateFEN`'s placement loop, appended to `sb`. */
    method AppendRank(sb: string, r: int) returns (sb': string)
      requires Valid() && 0 <= r < 8
      ensures sb' == sb + RankText(Row(cells, r), 0)
    {
      ghost var row := Row(cells, r);
      sb' := sb;
      var emp := 0;
      for c := 0 to 8
        invariant 0 <= emp <= c
        invariant sb' + RankText(row[c..], emp) == sb + RankText(row, 0)
      {
        var q := grid[r, c];
        assert row[c..] == [q] + row[c + 1..];
        if q.None? {
          emp := emp + 1;
        } else {
          ghost var before, emp0 := sb', emp;
          ghost var tail := RankText(row[c + 1..], 0);
          if emp > 0 {
            sb' := sb' + [Digit(emp)];
            emp := 0;
          }
          sb' := sb' + [Symbol(q.value)];
          assert sb' == before + EmptyRun(emp0) + [Symbol(q.value)];
        }
      }
      if emp > 0 {
        sb' := sb' + [Digit(emp)];
      }
    }

    /** The placement field: rows 7 down to 0 separated by '/'. */
    method PlacementText() returns (sb: string)
      requires Valid()
      ensures sb == Placement(cells)
    {
      ghost var g := cells;
      sb := "";
      var r := 7;
      while r >= 0
        invariant -1 <= r <= 7
        invariant sb == if r == 7 then "" else if r >= 0 then Placement(g[8 * (r + 1)..]) + "/" else Placement(g)
      {
        sb := AppendRank(sb, r);
        PlacementFrom(g, r);
        if r > 0 {
          sb := sb + "/";
        }
        r := r - 1;
      }
      assert g[0..] == g;
    }

    /** `generateFEN`: placement, side, castling letters in the order KQkq (or
        '-'), and the en-passant square (or '-'). */
    method GenerateFen() returns (s: string)
      requires Valid()
      ensures s == Fen(State())
    {
      var sb := PlacementText();
      var side := if whiteToMove then " w " else " b ";
      sb := sb + side;
      var cr := if whiteCastleKing then "K" else "";
      if whiteCastleQueen { cr := cr + "Q"; }
      if blackCastleKing { cr := cr + "k"; }
      if blackCastleQueen { cr := cr + "q"; }
      var cast := if |cr| > 0 then cr else "-";
      assert cast == CastlingText(whiteCastleKing, whiteCastleQueen, blackCastleKing, blackCastleQueen);
      sb := sb + cast;
      sb := sb + " ";
      var ep := if enPassantRow >= 0 then [Chr('a' as int + enPassantCol), Chr('1' as int + enPassantRow)] else "-";
      assert ep == EnPassantText(enPassantRow, enPassantCol);
      sb := sb + ep;
      s := sb;
    }

    /** `loadFromFEN`: the four fields are checked and the rank count, then a
        fresh array is filled rank by rank, then the flags are read; an
        exception leaves whatever was written before it. */
    method LoadFromFen(fen: string) returns (err: Option<LoadError>)
      requires Valid()
      modifies this
      ensures Valid() && (State(), err) == Load(old(State()), fen)
    {
      ghost var p := State();
      var parts := Fields(fen);
      if |parts| < 4 {
        return Some(TooFewFields);
      }
      var ranks := SplitSlash(parts[0]);
      if |ranks| != 8 {
        return Some(WrongRankCount);
      }
      err := PlaceAll(ranks);
      LoadPlaced(p, fen, parts, ranks, cells, err);
      if err.Some? {
        return;
      }
      err := ReadFlags(parts[1], parts[2], parts[3]);
      if err.Some? {
        return;
      }
      ResetHistory();
    }

    /** The end of `loadFromFEN`: the table cleared and the current FEN put
        with count 1. */
    method ResetHistory()
      requires Valid()
      modifies this`repetitionCounts
      ensures Valid() && State() == Reset(old(State())).0
    {
      var s := GenerateFen();
      repetitionCounts := map[s := 1];
    }

    /** The placement part of `loadFromFEN`: a fresh array, then the ranks
        from the last text (row 0) to the first (row 7). */
    method PlaceAll(ranks: seq<string>) returns (err: Option<LoadError>)
      requires |ranks| == 8
      modifies this`grid, this`cells
      ensures Valid() && (cells, err) == PlaceRanks(EmptyGrid(), ranks)
    {
      grid := new Square[8, 8]((_, _) => None);
      cells := EmptyGrid();
      assert ranks[..8] == ranks;
      for r := 0 to 8
        invariant Valid() && fresh(grid)
        invariant PlaceRanks(EmptyGrid(), ranks) == PlaceRanks(cells, ranks[..8 - r])
      {
        ghost var before := cells;
        err := ReadRank(r, ranks[7 - r]);
        PlaceRanksFrom(before, ranks, r);
        if err.Some? {
          return;
        }
      }
      return None;
    }

    /** The inner loop of `loadFromFEN`: one rank's text read into row r. */
    method ReadRank(r: int, rank: string) returns (err: Option<LoadError>)
      requires Valid() && 0 <= r < 8
      modifies this`cells, grid
      ensures Valid() && (cells, err) == PlaceRank(old(cells), r, rank, 0)
    {
      var c := 0;
      for i := 0 to |rank|
        invariant Valid() && c >= 0
        invariant PlaceRank(old(cells), r, rank, 0) == PlaceRank(cells, r, rank[i..], c)
      {
        var ch := rank[i];
        assert rank[i..][0] == ch && rank[i..][1..] == rank[i + 1..];
        if IsDigit(ch) {
          c := c + (ch as int - '0' as int);
        } else {
          var piece := FenCharToPiece(ch);
          if piece.None? {
            return Some(UnknownSymbol(ch));
          }
          if c >= 8 {
            return Some(ColumnOutOfRange);
          }
          Write(r, c, piece);
          c := c + 1;
        }
      }
      assert rank[|rank|..] == [];
      return None;
    }

    /** The side, castling and en-passant fields of `loadFromFEN`; on success
        the clock is 0 and the table empty, ready for the new FEN. */
    method ReadFlags(side: string, cast: string, ep: string) returns (err: Option<LoadError>)
      requires |ep| > 0
      modifies this`whiteToMove, this`whiteCastleKing, this`whiteCastleQueen, this`blackCastleKing
      modifies this`blackCastleQueen, this`enPassantRow, this`enPassantCol, this`halfmoveClock, this`repetitionCounts
      ensures (State(), err) == LoadFlags(old(State()), cells, side, cast, ep)
    {
      whiteToMove := side == "w";
      whiteCastleKing := 'K' in cast;
      whiteCastleQueen := 'Q' in cast;
      blackCastleKing := 'k' in cast;
      blackCastleQueen := 'q' in cast;
      if ep == "-" {
        enPassantRow, enPassantCol := -1, -1;
      } else {
        enPassantCol := ep[0] as int - 'a' as int;
        if |ep| < 2 {
          return Some(EnPassantTooShort);
        }
        enPassantRow := ep[1] as int - '1' as int;
      }
      halfmoveClock := 0;
      repetitionCounts := map[];
      return None;
    }

    // ---------------------------------------------------------------- attacks

    /** `isSquareAttacked`: the knight, pawn, orthogonal, diagonal and king
        scans in that order, each returning as soon as it finds an attacker. */
    method SquareAttacked(row: int, col: int, byWhite: bool) returns (attacked: bool)
      requires Valid()
      ensures attacked == IsSquareAttacked(cells, row, col, byWhite)
    {
      attacked := StepScan(row, col, Make(byWhite, Knight), KnightDeltas);
      if attacked {
        return;
      }
      attacked := PawnScan(row, col, byWhite);
      if attacked {
        return;
      }
      attacked := SliderScan(row, col, byWhite, RookDirs, {Rook, Queen});
      if attacked {
        return;
      }
      attacked := SliderScan(row, col, byWhite, BishopDirs, {Bishop, Queen});
      if attacked {
        return;
      }
      attacked := StepScan(row, col, Make(byWhite, King), KingDeltas);
    }

    /** The knight and king scans: some offset from (row, col) lands on the
        board on exactly `piece`. */
    method StepScan(row: int, col: int, piece: Piece, deltas: seq<(int, int)>) returns (found: bool)
      requires Valid()
      ensures found <==> exists i | 0 <= i < |deltas| :: Holds(cells, row + deltas[i].0, col + deltas[i].1, piece)
    {
      for i := 0 to |deltas|
        invariant forall j | 0 <= j < i :: !Holds(cells, row + deltas[j].0, col + deltas[j].1, piece)
      {
        var r, c := row + deltas[i].0, col + deltas[i].1;
        if OnBoard(r, c) && grid[r, c] == Some(piece) {
          return true;
        }
      }
      return false;
    }

    /** The pawn scan: a pawn of the attacking colour on the row behind
        (row - 1 for white, row + 1 for black), one column to either side. */
    method PawnScan(row: int, col: int, byWhite: bool) returns (found: bool)
      requires Valid()
      ensures found == PawnAttack(cells, row, col, byWhite)
    {
      var pd := if byWhite then -1 else 1;
      var pawn := Make(byWhite, Pawn);
      for k := 0 to 2
        invariant k >= 1 ==> !Holds(cells, row + pd, col - 1, pawn)
        invariant k >= 2 ==> !Holds(cells, row + pd, col + 1, pawn)
      {
        var r, c := row + pd, col + (if k == 0 then -1 else 1);
        if OnBoard(r, c) && grid[r, c] == Some(pawn) {
          return true;
        }
      }
      return false;
    }

    /** One ray walk of the slider scans: the first occupied square from
        (r, c) on in direction (dr, dc). */
    method FirstOnRay(r: int, c: int, dr: int, dc: int) returns (q: Square)
      requires Valid() && UnitStep(dr, dc)
      ensures q == FirstOccupied(cells, r, c, dr, dc)
    {
      var r2, c2 := r, c;
      while OnBoard(r2, c2)
        invariant FirstOccupied(cells, r2, c2, dr, dc) == FirstOccupied(cells, r, c, dr, dc)
        decreases StepsLeft(r2, c2, dr, dc)
      {
        if grid[r2, c2].Some? {
          return grid[r2, c2];
        }
        r2, c2 := r2 + dr, c2 + dc;
      }
      return None;
    }

    /** The orthogonal or diagonal scan: along some direction the first piece
        met is of the attacking colour and of one of `kinds`. */
    method SliderScan(row: int, col: int, byWhite: bool, dirs: seq<(int, int)>, kinds: set<Kind>) returns (found: bool)
      requires Valid() && UnitSteps(dirs)
      ensures found == SliderAttack(cells, row, col, byWhite, dirs, kinds)
    {
      for i := 0 to |dirs|
        invariant forall j | 0 <= j < i ::
          var q := FirstOccupied(cells, row + dirs[j].0, col + dirs[j].1, dirs[j].0, dirs[j].1);
          !(q.Some? && IsWhite(q.value) == byWhite && KindOf(q.value) in kinds)
      {
        var d := dirs[i];
        var q := FirstOnRay(row + d.0, col + d.1, d.0, d.1);
        if q.Some? && IsWhite(q.value) == byWhite && KindOf(q.value) in kinds {
          return true;
        }
      }
      return false;
    }

    /** The king search of `isInCheck`: rows in order, columns in order, the
        first square holding `piece`, or (-1, -1). */
    method FindPiece(piece: Piece) returns (kr: int, kc: int)
      requires Valid()
      ensures (kr, kc) == Locate(cells, piece)
    {
      kr, kc := -1, -1;
      for r := 0 to 8
        invariant forall j | 0 <= j < r * 8 :: cells[j] != Some(piece)
      {
        for c := 0 to 8
          invariant forall j | 0 <= j < r * 8 + c :: cells[j] != Some(piece)
        {
          if grid[r, c] == Some(piece) {
            kr, kc := r, c;
            FirstFound(cells, piece, r, c);
            return;
          }
        }
      }
    }

    /** `isInCheck`: the first king of that colour exists and is attacked by
        the other colour. */
    method IsInCheck(white: bool) returns (check: bool)
      requires Valid()
      ensures check == InCheck(cells, white)
    {
      var kr, kc := FindPiece(Make(white, King));
      check := false;
      if kr != -1 {
        check := SquareAttacked(kr, kc, !white);
      }
    }
  }
}
