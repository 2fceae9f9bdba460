/** The position classifiers of `Jogo.Board`: check, checkmate, stalemate, the
    two automatic draws and the overall game result. */
module Rules {
  import opened Wrappers
  import opened Pieces
  import opened Positions
  import opened Generation

  datatype GameResult = Ongoing | Draw | WhiteWins | BlackWins

  /** `isInCheck`: the first king of that colour in row-major order is attacked;
      false when there is no such king. */
  predicate InCheck(g: Grid, white: bool)
  {
    var k := FindKing(g, white);
    k.0 != -1 && IsSquareAttacked(g, k.0, k.1, !white)
  }

  predicate IsCheckmate(p: Position)
    requires Generable(p, p.whiteToMove)
  {
    InCheck(p.grid, p.whiteToMove) && |LegalMoves(p, p.whiteToMove)| == 0
  }

  predicate IsStalemate(p: Position)
    requires Generable(p, p.whiteToMove)
  {
    !InCheck(p.grid, p.whiteToMove) && |LegalMoves(p, p.whiteToMove)| == 0
  }

  /** `isDrawByFiftyMoves`: a hundred half-moves without a pawn move or capture. */
  predicate DrawByFiftyMoves(p: Position)
  {
    p.halfmoveClock >= 100
  }

  /** `isDrawByRepetition`: the current FEN has been counted three times. */
  predicate DrawByRepetition(p: Position)
  {
    CountOf(p.repetitionCounts, Fen(p)) >= 3
  }

  /** `getGameResult`: checkmate first, then the draws, else the game goes on. */
  function Result(p: Position): (r: GameResult)
    requires Generable(p, p.whiteToMove)
    ensures r == WhiteWins <==> IsCheckmate(p) && !p.whiteToMove
    ensures r == BlackWins <==> IsCheckmate(p) && p.whiteToMove
    ensures r == Draw <==> !IsCheckmate(p) && (IsStalemate(p) || DrawByFiftyMoves(p) || DrawByRepetition(p))
    ensures r == Ongoing <==> |LegalMoves(p, p.whiteToMove)| > 0 && !DrawByFiftyMoves(p) && !DrawByRepetition(p)
  {
    if IsCheckmate(p) then (if p.whiteToMove then BlackWins else WhiteWins)
    else if IsStalemate(p) || DrawByFiftyMoves(p) || DrawByRepetition(p) then Draw
    else Ongoing
  }

  /** `isGameOver`. */
  predicate GameOver(p: Position)
    requires Generable(p, p.whiteToMove)
  {
    Result(p) != Ongoing
  }

  /** A side with no king is never in check. */
  lemma NoKingNoCheck(g: Grid, white: bool)
    requires forall r, c | OnBoard(r, c) :: At(g, r, c) != Some(Make(white, King))
    ensures !InCheck(g, white)
  {
  }

  /** A side with legal moves is neither mated nor stalemated; the game is
      over exactly when it has none or a draw rule fires. */
  lemma GameOverIff(p: Position)
    requires Generable(p, p.whiteToMove)
    ensures GameOver(p) <==> |LegalMoves(p, p.whiteToMove)| == 0 || DrawByFiftyMoves(p) || DrawByRepetition(p)
  {
  }
}
