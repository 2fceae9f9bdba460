/** `ai.MoveGenerator` as methods over a `Board`: the square loop appending
    each piece's pseudo-legal moves, and the filter that plays every candidate
    on a copy of the board and keeps it when the mover's king is not attacked
    there.  Each method is proved to build the list the pure specification in
    `Generation` describes, so `GenerateLegalMoves` returns `LegalMoves`. */
module MoveGen {
  import opened Wrappers
  import opened Pieces
  import opened Moves
  import opened Positions
  import opened Generation
  import opened Boards

  /** The colour of the piece on (r, c). */
  ghost function Colour(b: Board, r: int, c: int): bool
    reads b, b.grid
    requires b.Valid() && OnBoard(r, c) && At(b.cells, r, c).Some?
  {
    IsWhite(At(b.cells, r, c).value)
  }

  /** `addKnightMoves`, and the first loop of `addKingMoves`: each offset
      that lands on the board on an empty or enemy square is a move. */
  method AddSteps(b: Board, r: int, c: int, deltas: seq<(int, int)>, mvs: seq<Move>) returns (mvs': seq<Move>)
    requires b.Valid() && OnBoard(r, c) && At(b.cells, r, c).Some?
    ensures mvs' == mvs + Jumps(b.cells, r, c, Colour(b, r, c), deltas, |deltas|)
  {
    var white := IsWhite(b.grid[r, c].value);
    mvs' := mvs;
    for i := 0 to |deltas|
      invariant mvs' == mvs + Jumps(b.cells, r, c, white, deltas, i)
    {
      var r2, c2 := r + deltas[i].0, c + deltas[i].1;
      if OnBoard(r2, c2) {
        var t := b.grid[r2, c2];
        if t.None? || IsWhite(t.value) != white {
          mvs' := mvs' + [Step(r, c, r2, c2)];
        }
      }
    }
  }

  /** One step of the ray walk at the on-board square (r2, c2) holding t,
      once the square's own move (if any) is appended to `before`: an
      occupied square completes the list, an empty one leaves the rest of
      the ray to walk. */
  lemma RayWalkStep(g: Grid, r: int, c: int, white: bool, r2: int, c2: int, dr: int, dc: int, t: Square,
                    before: seq<Move>, after: seq<Move>, total: seq<Move>)
    requires OnBoard(r, c) && UnitStep(dr, dc) && OnBoard(r2, c2) && t == At(g, r2, c2)
    requires before + Ray(g, r, c, white, r2, c2, dr, dc) == total
    requires after == before + if t.None? || IsWhite(t.value) != white then [Step(r, c, r2, c2)] else []
    ensures t.Some? ==> after == total
    ensures t.None? ==> after + Ray(g, r, c, white, r2 + dr, c2 + dc, dr, dc) == total
  {
    RayAdvance(g, r, c, white, r2, c2, dr, dc, before, after);
  }

  /** The unfolding of `Ray` at an on-board square, appended to `before`. */
  lemma RayAdvance(g: Grid, r: int, c: int, white: bool, r2: int, c2: int, dr: int, dc: int,
                   before: seq<Move>, after: seq<Move>)
    requires OnBoard(r, c) && UnitStep(dr, dc) && OnBoard(r2, c2)
    requires after == before + if Enterable(g, r2, c2, white) then [Step(r, c, r2, c2)] else []
    ensures At(g, r2, c2).Some? ==> after == before + Ray(g, r, c, white, r2, c2, dr, dc)
    ensures At(g, r2, c2).None? ==>
      after + Ray(g, r, c, white, r2 + dr, c2 + dc, dr, dc) == before + Ray(g, r, c, white, r2, c2, dr, dc)
  {
    var here := if Enterable(g, r2, c2, white) then [Step(r, c, r2, c2)] else [];
    AppendAssociative(before, here, Ray(g, r, c, white, r2 + dr, c2 + dc, dr, dc));
  }

  /** One direction of `addSliding`: empty squares are added and passed, the
      first occupied one is added when it holds an enemy, and the walk stops. */
  method AddRay(b: Board, r: int, c: int, white: bool, dr: int, dc: int, mvs: seq<Move>) returns (mvs': seq<Move>)
    requires b.Valid() && OnBoard(r, c) && UnitStep(dr, dc)
    ensures mvs' == mvs + Ray(b.cells, r, c, white, r + dr, c + dc, dr, dc)
  {
    ghost var g := b.cells;
    ghost var total := mvs + Ray(g, r, c, white, r + dr, c + dc, dr, dc);
    mvs' := mvs;
    var r2, c2 := r + dr, c + dc;
    while OnBoard(r2, c2)
      invariant mvs' + Ray(g, r, c, white, r2, c2, dr, dc) == total
      decreases StepsLeft(r2, c2, dr, dc)
    {
      ghost var before := mvs';
      var t := b.grid[r2, c2];
      if t.None? || IsWhite(t.value) != white {
        mvs' := mvs' + [Step(r, c, r2, c2)];
      }
      RayWalkStep(g, r, c, white, r2, c2, dr, dc, t, before, mvs', total);
      if t.Some? {
        break;
      }
      StepsLeftDecreases(r2, c2, dr, dc);
      r2, c2 := r2 + dr, c2 + dc;
    }
  }

  /** One more direction of `addSliding`: its ray extends the first i. */
  lemma SlidesStep(g: Grid, r: int, c: int, white: bool, dirs: seq<(int, int)>, i: nat,
                   mvs: seq<Move>, before: seq<Move>, after: seq<Move>)
    requires OnBoard(r, c) && i < |dirs| && UnitSteps(dirs)
    requires before == mvs + Slides(g, r, c, white, dirs, i)
    requires after == before + Ray(g, r, c, white, r + dirs[i].0, c + dirs[i].1, dirs[i].0, dirs[i].1)
    ensures after == mvs + Slides(g, r, c, white, dirs, i + 1)
  {
    var d := dirs[i];
    var ray := Ray(g, r, c, white, r + d.0, c + d.1, d.0, d.1);
    assert Slides(g, r, c, white, dirs, i + 1) == Slides(g, r, c, white, dirs, i) + ray;
    AppendAssociative(mvs, Slides(g, r, c, white, dirs, i), ray);
  }

  /** Concatenation is associative. */
  lemma AppendAssociative<T>(a: seq<T>, b: seq<T>, c: seq<T>)
    ensures a + b + c == a + (b + c)
  {
  }

  /** `addSliding` over the directions of `dirs`, in order. */
  method AddSliding(b: Board, r: int, c: int, dirs: seq<(int, int)>, mvs: seq<Move>) returns (mvs': seq<Move>)
    requires b.Valid() && OnBoard(r, c) && At(b.cells, r, c).Some? && UnitSteps(dirs)
    ensures mvs' == mvs + Slides(b.cells, r, c, Colour(b, r, c), dirs, |dirs|)
  {
    ghost var g := b.cells;
    var white := IsWhite(b.grid[r, c].value);
    mvs' := mvs;
    for i := 0 to |dirs|
      invariant mvs' == mvs + Slides(g, r, c, white, dirs, i)
    {
      ghost var before := mvs';
      var d := dirs[i];
      assert UnitStep(d.0, d.1);
      mvs' := AddRay(b, r, c, white, d.0, d.1, mvs');
      SlidesStep(g, r, c, white, dirs, i, mvs, before, mvs');
    }
  }

  /** `addKingMoves`: the eight neighbours, then king-side and queen-side
      castling from the home square when the king is not attacked. */
  method AddKingMoves(b: Board, r: int, c: int, mvs: seq<Move>) returns (mvs': seq<Move>)
    requires b.Valid() && OnBoard(r, c) && At(b.cells, r, c).Some?
    ensures mvs' == mvs + Jumps(b.cells, r, c, Colour(b, r, c), KingDeltas, 8)
                        + Castles(b.State(), r, c, Colour(b, r, c))
  {
    mvs' := AddSteps(b, r, c, KingDeltas, mvs);
    var white := IsWhite(b.grid[r, c].value);
    var castles := AddCastles(b, r, c, white);
    mvs' := mvs' + castles;
  }

  /** The castling part of `addKingMoves`; the rook's presence is not checked. */
  method AddCastles(b: Board, r: int, c: int, white: bool) returns (ms: seq<Move>)
    requires b.Valid() && OnBoard(r, c)
    ensures ms == Castles(b.State(), r, c, white)
  {
    ms := [];
    var home := if white then 0 else 7;
    if r == home && c == 4 {
      var inCheck := b.SquareAttacked(r, c, !white);
      if !inCheck {
        var kingSide := KingSideClear(b, white);
        if kingSide {
          ms := ms + [Step(r, c, home, 6)];
        }
        var queenSide := QueenSideClear(b, white);
        if queenSide {
          ms := ms + [Step(r, c, home, 2)];
        }
      }
    }
  }

  /** King-side castling's conditions: the right held, columns 5 and 6 of
      the home row empty and not attacked. */
  method KingSideClear(b: Board, white: bool) returns (ok: bool)
    requires b.Valid()
    ensures var g, home := b.cells, HomeRow(white);
      ok == ((if white then b.whiteCastleKing else b.blackCastleKing)
             && At(g, home, 5).None? && At(g, home, 6).None?
             && !IsSquareAttacked(g, home, 5, !white) && !IsSquareAttacked(g, home, 6, !white))
  {
    var home := if white then 0 else 7;
    ok := false;
    if (white && b.whiteCastleKing) || (!white && b.blackCastleKing) {
      if b.grid[home, 5].None? && b.grid[home, 6].None? {
        var a5 := b.SquareAttacked(home, 5, !white);
        var a6 := b.SquareAttacked(home, 6, !white);
        ok := !a5 && !a6;
      }
    }
  }

  /** Queen-side castling's conditions: the right held, columns 1, 2 and 3
      of the home row empty, columns 3 and 2 not attacked. */
  method QueenSideClear(b: Board, white: bool) returns (ok: bool)
    requires b.Valid()
    ensures var g, home := b.cells, HomeRow(white);
      ok == ((if white then b.whiteCastleQueen else b.blackCastleQueen)
             && At(g, home, 1).None? && At(g, home, 2).None? && At(g, home, 3).None?
             && !IsSquareAttacked(g, home, 3, !white) && !IsSquareAttacked(g, home, 2, !white))
  {
    var home := if white then 0 else 7;
    ok := false;
    if (white && b.whiteCastleQueen) || (!white && b.blackCastleQueen) {
      if b.grid[home, 1].None? && b.grid[home, 2].None? && b.grid[home, 3].None? {
        var a3 := b.SquareAttacked(home, 3, !white);
        var a2 := b.SquareAttacked(home, 2, !white);
        ok := !a3 && !a2;
      }
    }
  }

  /** A pawn move to (r2, c2): the four promotions, queen first, on row 7 or
      0, a plain move elsewhere. */
  method AddPawnTo(r: int, c: int, r2: int, c2: int, white: bool, mvs: seq<Move>) returns (mvs': seq<Move>)
    ensures mvs' == mvs + PawnTo(r, c, r2, c2, white)
  {
    if r2 == 7 || r2 == 0 {
      var promos := [Make(white, Queen), Make(white, Rook), Make(white, Bishop), Make(white, Knight)];
      mvs' := mvs;
      for k := 0 to 4
        invariant mvs' == mvs + Promotions(r, c, r2, c2, white)[..k]
      {
        mvs' := mvs' + [Move(r, c, r2, c2, Some(promos[k]))];
        assert Promotions(r, c, r2, c2, white)[..k + 1] == Promotions(r, c, r2, c2, white)[..k] + [Move(r, c, r2, c2, Some(promos[k]))];
      }
      assert Promotions(r, c, r2, c2, white)[..4] == Promotions(r, c, r2, c2, white);
    } else {
      mvs' := mvs + [Step(r, c, r2, c2)];
    }
  }

  /** `addPawnMoves`: the advances, the two diagonal captures and en passant. */
  method AddPawnMoves(b: Board, r: int, c: int, mvs: seq<Move>) returns (mvs': seq<Move>)
    requires b.Valid() && PieceReady(b.State(), r, c) && KindOf(At(b.cells, r, c).value) == Pawn
    ensures mvs' == mvs + PawnMoves(b.State(), r, c, Colour(b, r, c))
  {
    ghost var p := b.State();
    var white := IsWhite(b.grid[r, c].value);
    mvs' := AddAdvances(b, r, c, white, mvs);
    mvs' := AddCaptures(b, r, c, white, mvs');
    mvs' := AddEnPassants(b, r, c, white, mvs');
    PawnParts(p, r, c, white, mvs, mvs');
  }

  /** The four parts of `addPawnMoves`, appended one after another, make up
      `PawnMoves`. */
  lemma PawnParts(p: Position, r: int, c: int, white: bool, mvs: seq<Move>, out: seq<Move>)
    requires OnBoard(r, c) && OnBoard(r + Direction(white), c)
    requires 0 <= p.enPassantRow < 8 ==> 0 <= p.enPassantCol < 8
    requires out == mvs + Advances(p.grid, r, c, white) + Capture(p.grid, r, c, white, -1)
                  + Capture(p.grid, r, c, white, 1) + EnPassants(p, r, c, white)
    ensures out == mvs + PawnMoves(p, r, c, white)
  {
    var a, l, rt, e := Advances(p.grid, r, c, white), Capture(p.grid, r, c, white, -1),
                       Capture(p.grid, r, c, white, 1), EnPassants(p, r, c, white);
    AppendAssociative(mvs, a, l);
    AppendAssociative(mvs, a + l, rt);
    AppendAssociative(mvs, a + l + rt, e);
  }

  /** The capture loop of `addPawnMoves`, over the column offsets -1 and 1. */
  method AddCaptures(b: Board, r: int, c: int, white: bool, mvs: seq<Move>) returns (mvs': seq<Move>)
    requires b.Valid() && OnBoard(r, c) && OnBoard(r + Direction(white), c)
    ensures mvs' == mvs + Capture(b.cells, r, c, white, -1) + Capture(b.cells, r, c, white, 1)
  {
    mvs' := mvs;
    for k := 0 to 2
      invariant k == 0 ==> mvs' == mvs
      invariant k == 1 ==> mvs' == mvs + Capture(b.cells, r, c, white, -1)
      invariant k == 2 ==> mvs' == mvs + Capture(b.cells, r, c, white, -1) + Capture(b.cells, r, c, white, 1)
    {
      var dc := if k == 0 then -1 else 1;
      mvs' := AddCapture(b, r, c, white, dc, mvs');
    }
  }

  /** The single advance onto an empty square (four promotions on the last
      rank), then the double advance from the start row over two empty squares. */
  method AddAdvances(b: Board, r: int, c: int, white: bool, mvs: seq<Move>) returns (mvs': seq<Move>)
    requires b.Valid() && OnBoard(r, c) && OnBoard(r + Direction(white), c)
    ensures mvs' == mvs + Advances(b.cells, r, c, white)
  {
    var dir := if white then 1 else -1;
    var start := if white then 1 else 6;
    var r1 := r + dir;
    mvs' := mvs;
    if b.grid[r1, c].None? {
      mvs' := AddPawnTo(r, c, r1, c, white, mvs');
      if r == start && b.grid[r1 + dir, c].None? {
        mvs' := mvs' + [Step(r, c, r1 + dir, c)];
      }
    }
  }

  /** The diagonal capture towards column c + dc: an enemy piece there is
      taken, with the four promotions on the last rank. */
  method AddCapture(b: Board, r: int, c: int, white: bool, dc: int, mvs: seq<Move>) returns (mvs': seq<Move>)
    requires b.Valid() && OnBoard(r, c) && OnBoard(r + Direction(white), c)
    ensures mvs' == mvs + Capture(b.cells, r, c, white, dc)
  {
    var r1, c1 := r + (if white then 1 else -1), c + dc;
    mvs' := mvs;
    if 0 <= c1 < 8 {
      var target := b.grid[r1, c1];
      if target.Some? && IsWhite(target.value) != white {
        mvs' := AddPawnTo(r, c, r1, c1, white, mvs');
      }
    }
  }

  /** The en-passant part: a target on the row in front, on an adjacent file. */
  method AddEnPassants(b: Board, r: int, c: int, white: bool, mvs: seq<Move>) returns (mvs': seq<Move>)
    requires b.Valid() && OnBoard(r, c) && OnBoard(r + Direction(white), c)
    requires 0 <= b.enPassantRow < 8 ==> 0 <= b.enPassantCol < 8
    ensures mvs' == mvs + EnPassants(b.State(), r, c, white)
  {
    var r1 := r + (if white then 1 else -1);
    var epRow, epCol := b.enPassantRow, b.enPassantCol;
    mvs' := mvs;
    if epRow != -1 && epRow == r1 {
      ghost var left := if c - 1 == epCol then [Step(r, c, r1, epCol)] else [];
      ghost var right := if c + 1 == epCol then [Step(r, c, r1, epCol)] else [];
      assert EnPassants(b.State(), r, c, white) == left + right;
      for k := 0 to 2
        invariant k == 0 ==> mvs' == mvs
        invariant k == 1 ==> mvs' == mvs + left
        invariant k == 2 ==> mvs' == mvs + left + right
      {
        var dc := if k == 0 then -1 else 1;
        if c + dc == epCol {
          mvs' := mvs' + [Step(r, c, r1, epCol)];
        }
      }
    }
  }

  /** The `switch` of the square loop: the moves of the piece on (r, c) by kind. */
  method AddPieceMoves(b: Board, r: int, c: int, mvs: seq<Move>) returns (mvs': seq<Move>)
    requires b.Valid() && PieceReady(b.State(), r, c)
    ensures mvs' == mvs + PieceMoves(b.State(), r, c)
  {
    var piece := b.grid[r, c].value;
    match KindOf(piece)
    case Pawn => mvs' := AddPawnMoves(b, r, c, mvs);
    case Knight => mvs' := AddSteps(b, r, c, KnightDeltas, mvs);
    case Bishop => mvs' := AddSliding(b, r, c, BishopDirs, mvs);
    case Rook => mvs' := AddSliding(b, r, c, RookDirs, mvs);
    case Queen => mvs' := AddSliding(b, r, c, QueenDirs, mvs);
    case King => mvs' := AddKingMoves(b, r, c, mvs);
  }

  /** One square of the pseudo-legal loop: the visited prefix grows by the
      square (r, c) and the list by that square's moves. */
  lemma PseudoStep(p: Position, white: bool, r: int, c: int)
    requires Generable(p, white) && OnBoard(r, c)
    ensures Pseudo(p, white, p.grid[..r * 8 + c + 1])
         == Pseudo(p, white, p.grid[..r * 8 + c]) + SquareMoves(p, white, r, c)
  {
    var n := r * 8 + c;
    assert p.grid[..n + 1][..n] == p.grid[..n];
    assert n / 8 == r && n % 8 == c;
  }

  /** The first loop of `generateLegalMoves`: every square in row-major
      order, skipping empty squares and pieces of the other colour. */
  method PseudoMoves(b: Board, whiteTurn: bool) returns (pseudo: seq<Move>)
    requires b.Valid() && Generable(b.State(), whiteTurn)
    ensures pseudo == Pseudo(b.State(), whiteTurn, b.cells)
  {
    ghost var p := b.State();
    pseudo := [];
    for r := 0 to 8
      invariant pseudo == Pseudo(p, whiteTurn, p.grid[..r * 8])
    {
      for c := 0 to 8
        invariant pseudo == Pseudo(p, whiteTurn, p.grid[..r * 8 + c])
      {
        PseudoStep(p, whiteTurn, r, c);
        var piece := b.grid[r, c];
        if piece.Some? && !(whiteTurn && !IsWhite(piece.value)) && !(!whiteTurn && !IsBlack(piece.value)) {
          GenerableReady(p, whiteTurn, r, c);
          pseudo := AddPieceMoves(b, r, c, pseudo);
        }
      }
    }
    assert p.grid[..64] == p.grid;
  }

  /** The filter's test on one candidate: a copy of the board plays it, and
      the first king of the mover's colour on the copy is not attacked. */
  method KeepsKingSafe(b: Board, m: Move, whiteTurn: bool) returns (safe: bool)
    requires b.Valid() && OnBoardMove(m)
    ensures safe == KingSafe(b.State(), m, whiteTurn)
  {
    var copy := new Board.Copy(b);
    copy.MakeMove(m);
    assert copy.cells == GridAfter(b.cells, m);
    var kr, kc := copy.FindPiece(Make(whiteTurn, King));
    var attacked := copy.SquareAttacked(kr, kc, !whiteTurn);
    safe := !attacked;
  }

  /** One more candidate through the filter. */
  lemma FilterStep(p: Position, white: bool, pseudo: seq<Move>, i: nat, safe: bool,
                   before: seq<Move>, after: seq<Move>)
    requires i < |pseudo| && forall m | m in pseudo :: OnBoardMove(m)
    requires before == Filter(p, white, pseudo[..i])
    requires safe == KingSafe(p, pseudo[i], white)
    requires after == before + if safe then [pseudo[i]] else []
    ensures after == Filter(p, white, pseudo[..i + 1])
  {
    assert pseudo[..i + 1][..i] == pseudo[..i];
  }

  /** `generateLegalMoves`: the pseudo-legal list, then the candidates that
      leave the mover's king unattacked, in the same order. */
  method GenerateLegalMoves(b: Board, whiteTurn: bool) returns (legal: seq<Move>)
    requires b.Valid() && Generable(b.State(), whiteTurn)
    ensures legal == LegalMoves(b.State(), whiteTurn)
  {
    ghost var p := b.State();
    var pseudo := PseudoMoves(b, whiteTurn);
    legal := [];
    for i := 0 to |pseudo|
      invariant legal == Filter(p, whiteTurn, pseudo[..i])
    {
      ghost var before := legal;
      var m := pseudo[i];
      var safe := KeepsKingSafe(b, m, whiteTurn);
      if safe {
        legal := legal + [m];
      }
      FilterStep(p, whiteTurn, pseudo, i, safe, before, legal);
    }
    assert pseudo[..|pseudo|] == pseudo;
  }
}
