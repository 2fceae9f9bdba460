/** The classifiers of `Jogo.Board` that run the move generator:
    checkmate, stalemate, the two automatic draws and `getGameResult`.  Each
    method reads the board and is proved to compute the classification that
    `Rules` defines on the board's value. */
module GameResults {
  import opened Wrappers
  import opened Positions
  import opened Generation
  import opened Boards
  import opened MoveGen
  import Rules

  /** `isCheckmate`: in check, and no legal move (the list is only built when
      the side is in check). */
  method IsCheckmate(b: Board) returns (mate: bool)
    requires b.Valid() && Generable(b.State(), b.whiteToMove)
    ensures mate == Rules.IsCheckmate(b.State())
  {
    var check := b.IsInCheck(b.whiteToMove);
    mate := false;
    if check {
      var legal := GenerateLegalMoves(b, b.whiteToMove);
      mate := |legal| == 0;
    }
  }

  /** `isStalemate`: not in check, and no legal move. */
  method IsStalemate(b: Board) returns (stale: bool)
    requires b.Valid() && Generable(b.State(), b.whiteToMove)
    ensures stale == Rules.IsStalemate(b.State())
  {
    var check := b.IsInCheck(b.whiteToMove);
    stale := false;
    if !check {
      var legal := GenerateLegalMoves(b, b.whiteToMove);
      stale := |legal| == 0;
    }
  }

  /** `isDrawByFiftyMoves`. */
  method IsDrawByFiftyMoves(b: Board) returns (draw: bool)
    ensures draw == Rules.DrawByFiftyMoves(b.State())
  {
    draw := b.halfmoveClock >= 100;
  }

  /** `isDrawByRepetition`: the current FEN's count, 0 when absent, is at least 3. */
  method IsDrawByRepetition(b: Board) returns (draw: bool)
    requires b.Valid()
    ensures draw == Rules.DrawByRepetition(b.State())
  {
    var fen := b.GenerateFen();
    var count := if fen in b.repetitionCounts then b.repetitionCounts[fen] else 0;
    draw := count >= 3;
  }

  /** `getGameResult`: checkmate gives the win to the side not to move;
      otherwise stalemate or either draw rule gives a draw. */
  method GetGameResult(b: Board) returns (r: Rules.GameResult)
    requires b.Valid() && Generable(b.State(), b.whiteToMove)
    ensures r == Rules.Result(b.State())
  {
    var mate := IsCheckmate(b);
    if mate {
      return if b.whiteToMove then Rules.BlackWins else Rules.WhiteWins;
    }
    var stale := IsStalemate(b);
    var fifty := IsDrawByFiftyMoves(b);
    var repeated := IsDrawByRepetition(b);
    if stale || fifty || repeated {
      return Rules.Draw;
    }
    return Rules.Ongoing;
  }

  /** `isGameOver`. */
  method IsGameOver(b: Board) returns (over: bool)
    requires b.Valid() && Generable(b.State(), b.whiteToMove)
    ensures over == Rules.GameOver(b.State())
  {
    var r := GetGameResult(b);
    over := r != Rules.Ongoing;
  }
}
