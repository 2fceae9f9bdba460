/** Properties of the move generator: the shape of pawn moves, the castling
    conditions, king safety after a legal move, and the fact that playing a
    legal move keeps a position in the class the generator can handle. */
module GenerationFacts {
  import opened Wrappers
  import opened Pieces
  import opened Moves
  import opened Positions
  import opened Generation

  /** The shape every pawn move has: a one-square advance onto an empty
      square, a two-square advance from the start row over two empty squares,
      a diagonal step onto an enemy, or a diagonal step onto the en-passant
      target; promotions are exactly the moves onto row 7 or 0 other than en
      passant, and promote to a queen, rook, bishop or knight of the pawn's
      colour. */
  predicate PawnShaped(p: Position, r: int, c: int, white: bool, m: Move)
    requires OnBoard(r, c) && OnBoard(r + Direction(white), c)
  {
    var r1, g := r + Direction(white), p.grid;
    && (m.toCol == c ==>
          At(g, r1, c).None?
          && (m.toRow == r1
              || (r == StartRow(white) && m.toRow == r1 + Direction(white)
                  && OnBoard(m.toRow, c) && At(g, m.toRow, c).None?)))
    && (m.toCol != c ==>
          m.toRow == r1 && (m.toCol == c - 1 || m.toCol == c + 1)
          && ((0 <= m.toCol < 8 && At(g, r1, m.toCol).Some? && IsWhite(At(g, r1, m.toCol).value) != white)
              || (p.enPassantRow == r1 && p.enPassantCol == m.toCol)))
    && (m.promotion.Some? ==>
          m.toRow == r1 && (r1 == 7 || r1 == 0)
          && KindOf(m.promotion.value) in {Queen, Rook, Bishop, Knight} && IsWhite(m.promotion.value) == white)
    && (m.promotion.None? && (m.toRow == 7 || m.toRow == 0) ==>
          m.toCol != c && p.enPassantRow == m.toRow && p.enPassantCol == m.toCol)
  }

  lemma AdvanceShape(p: Position, r: int, c: int, white: bool, m: Move)
    requires OnBoard(r, c) && OnBoard(r + Direction(white), c)
    requires m in Advances(p.grid, r, c, white)
    ensures PawnShaped(p, r, c, white, m)
  {
    var r1 := r + Direction(white);
    if m in PawnTo(r, c, r1, c, white) {
      if r1 == 7 || r1 == 0 {
        assert m in Promotions(r, c, r1, c, white);
      }
    }
  }

  lemma CaptureShape(p: Position, r: int, c: int, white: bool, dc: int, m: Move)
    requires OnBoard(r, c) && OnBoard(r + Direction(white), c) && (dc == -1 || dc == 1)
    requires m in Capture(p.grid, r, c, white, dc)
    ensures PawnShaped(p, r, c, white, m)
  {
    var r1 := r + Direction(white);
    if r1 == 7 || r1 == 0 {
      assert m in Promotions(r, c, r1, c + dc, white);
    }
  }

  lemma EnPassantShape(p: Position, r: int, c: int, white: bool, m: Move)
    requires OnBoard(r, c) && OnBoard(r + Direction(white), c)
    requires 0 <= p.enPassantRow < 8 ==> 0 <= p.enPassantCol < 8
    requires m in EnPassants(p, r, c, white)
    ensures PawnShaped(p, r, c, white, m)
  {
  }

  /** Every pawn move has the shape above. */
  lemma PawnMoveShape(p: Position, r: int, c: int, white: bool, m: Move)
    requires OnBoard(r, c) && OnBoard(r + Direction(white), c)
    requires 0 <= p.enPassantRow < 8 ==> 0 <= p.enPassantCol < 8
    requires m in PawnMoves(p, r, c, white)
    ensures PawnShaped(p, r, c, white, m)
  {
    var g := p.grid;
    if m in Advances(g, r, c, white) {
      AdvanceShape(p, r, c, white, m);
    } else if m in Capture(g, r, c, white, -1) {
      CaptureShape(p, r, c, white, -1, m);
    } else if m in Capture(g, r, c, white, 1) {
      CaptureShape(p, r, c, white, 1, m);
    } else {
      EnPassantShape(p, r, c, white, m);
    }
  }

  /** Within one target's list a promotion to one kind comes with the other three. */
  lemma PawnToFanOut(r: int, c: int, r2: int, c2: int, white: bool, m: Move, k: Kind)
    requires m in PawnTo(r, c, r2, c2, white) && m.promotion.Some?
    requires k in {Queen, Rook, Bishop, Knight}
    ensures m.(promotion := Some(Make(white, k))) in PawnTo(r, c, r2, c2, white)
  {
    assert r2 == 7 || r2 == 0;
    var ps := Promotions(r, c, r2, c2, white);
    assert m.(promotion := Some(Make(white, k))) == ps[if k == Queen then 0 else if k == Rook then 1 else if k == Bishop then 2 else 3];
  }

  lemma AdvanceFanOut(g: Grid, r: int, c: int, white: bool, m: Move, k: Kind)
    requires OnBoard(r, c) && OnBoard(r + Direction(white), c)
    requires m in Advances(g, r, c, white) && m.promotion.Some?
    requires k in {Queen, Rook, Bishop, Knight}
    ensures m.(promotion := Some(Make(white, k))) in Advances(g, r, c, white)
  {
    var r1 := r + Direction(white);
    PawnToFanOut(r, c, r1, c, white, m, k);
  }

  lemma CaptureFanOut(g: Grid, r: int, c: int, white: bool, dc: int, m: Move, k: Kind)
    requires OnBoard(r, c) && OnBoard(r + Direction(white), c)
    requires m in Capture(g, r, c, white, dc) && m.promotion.Some?
    requires k in {Queen, Rook, Bishop, Knight}
    ensures m.(promotion := Some(Make(white, k))) in Capture(g, r, c, white, dc)
  {
    PawnToFanOut(r, c, r + Direction(white), c + dc, white, m, k);
  }

  /** Promotions come in fours: whenever one promotion to a square is
      generated, so are the other three. */
  lemma PromotionFanOut(p: Position, r: int, c: int, white: bool, m: Move, k: Kind)
    requires OnBoard(r, c) && OnBoard(r + Direction(white), c)
    requires 0 <= p.enPassantRow < 8 ==> 0 <= p.enPassantCol < 8
    requires m in PawnMoves(p, r, c, white) && m.promotion.Some?
    requires k in {Queen, Rook, Bishop, Knight}
    ensures m.(promotion := Some(Make(white, k))) in PawnMoves(p, r, c, white)
  {
    var g := p.grid;
    var a, c1, c2, e := Advances(g, r, c, white), Capture(g, r, c, white, -1), Capture(g, r, c, white, 1),
                        EnPassants(p, r, c, white);
    assert PawnMoves(p, r, c, white) == a + c1 + c2 + e;
    var m' := m.(promotion := Some(Make(white, k)));
    if m in a {
      AdvanceFanOut(g, r, c, white, m, k);
      assert m' in a;
    } else if m in c1 {
      CaptureFanOut(g, r, c, white, -1, m, k);
      assert m' in c1;
    } else if m in c2 {
      CaptureFanOut(g, r, c, white, 1, m, k);
      assert m' in c2;
    } else {
      assert false;
    }
  }

  /** The king's two-file moves are exactly its castlings, and a castling is
      generated only from (home, 4), when that square is not attacked, the
      right is held, the squares between king and rook are empty and the
      squares the king crosses are not attacked.  The rook is not looked at. */
  lemma CastlingConditions(p: Position, r: int, c: int, m: Move)
    requires PieceReady(p, r, c) && IsKing(At(p.grid, r, c))
    requires m in PieceMoves(p, r, c) && Abs(m.toCol - c) == 2
    ensures var white, g := IsWhite(At(p.grid, r, c).value), p.grid;
      var home := HomeRow(white);
      && r == home && c == 4 && m.toRow == home && m.promotion.None?
      && !IsSquareAttacked(g, home, 4, !white)
      && (m.toCol == 6 ==>
            (if white then p.whiteCastleKing else p.blackCastleKing)
            && At(g, home, 5).None? && At(g, home, 6).None?
            && !IsSquareAttacked(g, home, 5, !white) && !IsSquareAttacked(g, home, 6, !white))
      && (m.toCol == 2 ==>
            (if white then p.whiteCastleQueen else p.blackCastleQueen)
            && At(g, home, 1).None? && At(g, home, 2).None? && At(g, home, 3).None?
            && !IsSquareAttacked(g, home, 3, !white) && !IsSquareAttacked(g, home, 2, !white))
  {
    var pc := At(p.grid, r, c).value;
    var white := IsWhite(pc);
    if m in Jumps(p.grid, r, c, white, KingDeltas, 8) {
      assert false;
    }
  }

  /** The converse: when all the conditions hold, the castling is generated. */
  lemma CastlingGenerated(p: Position, white: bool, kingSide: bool)
    requires var home, g := HomeRow(white), p.grid;
      && At(g, home, 4) == Some(Make(white, King))
      && !IsSquareAttacked(g, home, 4, !white)
      && (kingSide ==>
            (if white then p.whiteCastleKing else p.blackCastleKing)
            && At(g, home, 5).None? && At(g, home, 6).None?
            && !IsSquareAttacked(g, home, 5, !white) && !IsSquareAttacked(g, home, 6, !white))
      && (!kingSide ==>
            (if white then p.whiteCastleQueen else p.blackCastleQueen)
            && At(g, home, 1).None? && At(g, home, 2).None? && At(g, home, 3).None?
            && !IsSquareAttacked(g, home, 3, !white) && !IsSquareAttacked(g, home, 2, !white))
    ensures Step(HomeRow(white), 4, HomeRow(white), if kingSide then 6 else 2) in PieceMoves(p, HomeRow(white), 4)
  {
    var home := HomeRow(white);
    var m := Step(home, 4, home, if kingSide then 6 else 2);
    assert m in Castles(p, home, 4, white);
  }

  /** Every pseudo-legal move comes from one square's own list. */
  lemma {:induction false} PseudoMember(p: Position, white: bool, visited: seq<Square>, m: Move)
    requires visited <= p.grid && Generable(p, white) && m in Pseudo(p, white, visited)
    ensures exists i | 0 <= i < |visited| :: m in SquareMoves(p, white, i / 8, i % 8)
    decreases |visited|
  {
    var i := |visited| - 1;
    if m !in SquareMoves(p, white, i / 8, i % 8) {
      PseudoMember(p, white, visited[..i], m);
    }
  }

  /** A legal move is one of the pseudo-legal candidates. */
  lemma LegalIsPseudo(p: Position, white: bool, m: Move)
    requires Generable(p, white) && m in LegalMoves(p, white)
    ensures m in Pseudo(p, white, p.grid)
  {
  }

  /** A move on one square's list is a move of the piece standing there. */
  lemma SquareMember(p: Position, white: bool, r: int, c: int, m: Move)
    requires OnBoard(r, c) && Generable(p, white) && m in SquareMoves(p, white, r, c)
    ensures m.fromRow == r && m.fromCol == c && At(p.grid, r, c).Some?
    ensures IsWhite(At(p.grid, r, c).value) == white && PieceReady(p, r, c) && m in PieceMoves(p, r, c)
  {
    GenerableReady(p, white, r, c);
  }

  /** A legal move is a move of the piece on its source square. */
  lemma LegalIsPieceMove(p: Position, white: bool, m: Move)
    requires Generable(p, white) && m in LegalMoves(p, white)
    ensures OnBoardMove(m) && At(p.grid, m.fromRow, m.fromCol).Some?
    ensures IsWhite(At(p.grid, m.fromRow, m.fromCol).value) == white
    ensures PieceReady(p, m.fromRow, m.fromCol) && m in PieceMoves(p, m.fromRow, m.fromCol)
  {
    LegalIsPseudo(p, white, m);
    PseudoMember(p, white, p.grid, m);
    var i :| 0 <= i < 64 && m in SquareMoves(p, white, i / 8, i % 8);
    SquareMember(p, white, i / 8, i % 8, m);
  }

  /** After a legal move the mover's king (the first in row-major order, or
      the square (-1, -1) when it has none) is not attacked by the other side. */
  lemma LegalLeavesKingSafe(p: Position, white: bool, m: Move)
    requires Generable(p, white) && m in LegalMoves(p, white)
    ensures OnBoardMove(m)
    ensures var q := Apply(p, m);
      var k := FindKing(q.grid, white);
      !IsSquareAttacked(q.grid, k.0, k.1, !white)
  {
    assert Apply(p, m).grid == GridAfter(p.grid, m);
  }

  /** What a cell of the grid after a move can hold: nothing, the landing
      piece on the destination, its old content, or on the mover's row the
      rook brought over by castling. */
  lemma GridAfterCell(g: Grid, m: Move, r: int, c: int)
    requires OnBoardMove(m) && OnBoard(r, c)
    ensures var h := GridAfter(g, m);
      || At(h, r, c).None?
      || ((r, c) == (m.toRow, m.toCol) && At(h, r, c) == Landing(g, m))
      || At(h, r, c) == At(g, r, c)
      || (r == m.fromRow && Castling(g, m) && ((c == 5 && At(h, r, c) == At(g, r, 7))
                                            || (c == 3 && At(h, r, c) == At(g, r, 0))))
  {
    var g1 := AfterCapture(g, m);
    assert At(g1, r, c).None? || At(g1, r, c) == At(g, r, c);
    assert r == m.fromRow && (c == 0 || c == 7) ==> At(g1, r, c).None? || At(g1, r, c) == At(g, r, c);
  }

  /** What the generator guarantees about a move of a piece of colour `white`
      that matters for soundness: a pawn move has the pawn shape. */
  predicate MoverFacts(p: Position, white: bool, m: Move)
  {
    && OnBoardMove(m) && At(p.grid, m.fromRow, m.fromCol).Some?
    && IsWhite(At(p.grid, m.fromRow, m.fromCol).value) == white
    && (KindOf(At(p.grid, m.fromRow, m.fromCol).value) == Pawn ==>
          OnBoard(m.fromRow + Direction(white), m.fromCol) && PawnShaped(p, m.fromRow, m.fromCol, white, m))
  }

  lemma LegalMoverFacts(p: Position, white: bool, m: Move)
    requires Sound(p) && m in LegalMoves(p, white)
    ensures MoverFacts(p, white, m)
  {
    LegalIsPieceMove(p, white, m);
    PieceMoverFacts(p, white, m);
  }

  /** The same for a move the piece's own generator made. */
  lemma PieceMoverFacts(p: Position, white: bool, m: Move)
    requires Sound(p) && OnBoardMove(m) && At(p.grid, m.fromRow, m.fromCol).Some?
    requires IsWhite(At(p.grid, m.fromRow, m.fromCol).value) == white
    requires PieceReady(p, m.fromRow, m.fromCol) && m in PieceMoves(p, m.fromRow, m.fromCol)
    ensures MoverFacts(p, white, m)
  {
    var pc := At(p.grid, m.fromRow, m.fromCol).value;
    if KindOf(pc) == Pawn {
      PawnMoveShape(p, m.fromRow, m.fromCol, white, m);
    }
  }

  /** No pawn is left on its last rank by such a move. */
  lemma LastRankAfter(p: Position, white: bool, m: Move, w: bool, c: int)
    requires Sound(p) && MoverFacts(p, white, m) && 0 <= c < 8
    ensures At(GridAfter(p.grid, m), LastRank(w), c) != Some(Make(w, Pawn))
  {
    var g := p.grid;
    var h := GridAfter(g, m);
    var piece := At(g, m.fromRow, m.fromCol);
    GridAfterCell(g, m, LastRank(w), c);
    if (LastRank(w), c) == (m.toRow, m.toCol) && At(h, LastRank(w), c) == Landing(g, m) {
      if IsPawn(piece) && m.promotion.None? {
        assert piece == Some(Make(white, Pawn));
      }
    } else if At(h, LastRank(w), c) == At(g, LastRank(w), c) {
    } else if LastRank(w) == m.fromRow && Castling(g, m) {
      assert At(g, LastRank(w), 7) != Some(Make(w, Pawn));
      assert At(g, LastRank(w), 0) != Some(Make(w, Pawn));
    }
  }

  /** Such a move leaves the en-passant target absent or on row 2 or 5. */
  lemma EnPassantAfter(p: Position, white: bool, m: Move)
    requires MoverFacts(p, white, m)
    ensures var q := Moved(p, m);
      (q.enPassantRow == -1 && q.enPassantCol == -1)
      || ((q.enPassantRow == 2 || q.enPassantRow == 5) && 0 <= q.enPassantCol < 8)
  {
  }

  /** Playing a legal move keeps a sound position sound: no pawn reaches its
      last rank unpromoted, and a new en-passant target lies on row 2 or 5. */
  lemma LegalPreservesSound(p: Position, white: bool, m: Move)
    requires Sound(p) && m in LegalMoves(p, white)
    ensures OnBoardMove(m) && Sound(Apply(p, m))
  {
    LegalMoverFacts(p, white, m);
    var q := Apply(p, m);
    assert q.grid == GridAfter(p.grid, m);
    assert q.enPassantRow == Moved(p, m).enPassantRow && q.enPassantCol == Moved(p, m).enPassantCol;
    EnPassantAfter(p, white, m);
    forall w: bool, c | 0 <= c < 8
      ensures At(q.grid, LastRank(w), c) != Some(Make(w, Pawn))
    {
      LastRankAfter(p, white, m, w, c);
    }
  }
}
