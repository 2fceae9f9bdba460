/** The chess game the five search files search: terminal scores from
    `scoreTerminal`, the file's evaluation, its move ordering, and moves
    played with `makeMove`.  `Chess(cfg)` is the `Search.Game` of one file;
    on the positions play reaches (`Sound` ones) it is exactly the file's
    behaviour, and the lemmas here show that those positions stay sound. */
module ChessSearch {
  import opened Wrappers
  import opened Moves
  import opened Positions
  import opened Generation
  import opened GenerationFacts
  import opened Evaluation
  import opened Ordering
  import opened Search
  import opened SearchFacts
  import Rules

  // ------------------------------------------------------------ configuration

  datatype LeafKind = Static | Quiescent

  datatype Config = Config(depthBonus: bool, eval: Evaluator, leaf: LeafKind, order: Ordering, mateCutoff: bool)

  /** `SearchEngine`: plain terminal scores, material, no ordering. */
  const SearchEngineConfig := Config(false, Material, Static, Unordered, false)
  /** `AlphaBeta`: terminal scores carry the remaining depth. */
  const AlphaBetaConfig := Config(true, Material, Static, Unordered, false)
  /** `AlphaBetaB`: as `AlphaBeta`, and a mate score stops a node. */
  const AlphaBetaBConfig := Config(true, Material, Static, Unordered, true)
  /** `AlphaBetaC2`: quiescence at the leaves, checks and captures first. */
  const AlphaBetaC2Config := Config(true, Material, Quiescent, ChecksFirst, true)
  /** `BetterSquares`: piece-square evaluation and the five-tier ordering. */
  const BetterSquaresConfig := Config(true, Positional, Quiescent, Tiered, true)

  // ------------------------------------------------------------ terminal scores

  /** `scoreTerminal`: 0 for a draw (and for a game still going), a mate
      score for a win, moved away from zero by the remaining depth when the
      file passes it. */
  function ScoreTerminal(bonus: bool, p: Position, depth: nat): int
    requires Generable(p, p.whiteToMove)
  {
    var d := if bonus then depth else 0;
    match Rules.Result(p)
    case WhiteWins => MateScore + d
    case BlackWins => -MateScore - d
    case _ => 0
  }

  /** A terminal score is a mate score for white exactly when black is
      checkmated, one for black exactly when white is, and 0 otherwise. */
  lemma TerminalMeaning(bonus: bool, p: Position, depth: nat)
    requires Generable(p, p.whiteToMove)
    ensures ScoreTerminal(bonus, p, depth) >= MateScore <==> Rules.IsCheckmate(p) && !p.whiteToMove
    ensures ScoreTerminal(bonus, p, depth) <= -MateScore <==> Rules.IsCheckmate(p) && p.whiteToMove
    ensures !Rules.IsCheckmate(p) ==> ScoreTerminal(bonus, p, depth) == 0
    ensures bonus ==> Abs(ScoreTerminal(bonus, p, depth)) <= MateScore + depth
    ensures !bonus ==> Abs(ScoreTerminal(bonus, p, depth)) <= MateScore
  {
  }

  /** With the depth offset a mate found with more depth left, that is
      nearer the root, scores strictly better for the winner. */
  lemma NearerMateScoresBetter(p: Position, d1: nat, d2: nat)
    requires Generable(p, p.whiteToMove) && Rules.IsCheckmate(p) && d1 < d2
    ensures !p.whiteToMove ==> ScoreTerminal(true, p, d1) < ScoreTerminal(true, p, d2)
    ensures p.whiteToMove ==> ScoreTerminal(true, p, d1) > ScoreTerminal(true, p, d2)
  {
  }

  // ------------------------------------------------------------ children

  /** The moves a node searches, in order: the legal moves of the side the
      node plays for, sorted by the file's `orderMoves` when it has one. */
  function Children(cfg: Config, p: Position, maxing: bool): seq<Move>
    requires Sound(p)
  {
    Order(cfg.order, p, LegalMoves(p, maxing), maxing)
  }

  /** Every child is a legal move and leaves a sound position. */
  lemma ChildFacts(cfg: Config, p: Position, maxing: bool, k: nat)
    requires Sound(p) && k < |Children(cfg, p, maxing)|
    ensures Children(cfg, p, maxing)[k] in LegalMoves(p, maxing)
    ensures OnBoardMove(Children(cfg, p, maxing)[k]) && Sound(Apply(p, Children(cfg, p, maxing)[k]))
  {
    var ms := LegalMoves(p, maxing);
    var m := Children(cfg, p, maxing)[k];
    OrderPermutes(cfg.order, p, ms, maxing);
    assert m in multiset(Children(cfg, p, maxing));
    LegalPreservesSound(p, maxing, m);
  }

  /** Ordering never adds or drops a child. */
  lemma ChildrenPermute(cfg: Config, p: Position, maxing: bool)
    requires Sound(p)
    ensures multiset(Children(cfg, p, maxing)) == multiset(LegalMoves(p, maxing))
  {
    OrderPermutes(cfg.order, p, LegalMoves(p, maxing), maxing);
  }

  /** The moves `quiescence` keeps, in order: captures and moves that give
      check. */
  function Tactical(p: Position, maxing: bool, ms: seq<Move>): (tac: seq<Move>)
    requires forall m | m in ms :: OnBoardMove(m)
    ensures forall m | m in tac :: m in ms && (IsCapture(p, m) || GivesCheck(p, m, maxing))
    ensures forall m | m in ms && (IsCapture(p, m) || GivesCheck(p, m, maxing)) :: m in tac
  {
    if |ms| == 0 then []
    else
      var rest := Tactical(p, maxing, ms[1..]);
      assert forall m | m in ms[1..] :: m in ms;
      (if IsCapture(p, ms[0]) || GivesCheck(p, ms[0], maxing) then [ms[0]] else []) + rest
  }

  /** The tactical moves after ordering. */
  function Tactics(cfg: Config, p: Position, maxing: bool): seq<Move>
    requires Sound(p)
  {
    var tac := Tactical(p, maxing, LegalMoves(p, maxing));
    Order(cfg.order, p, tac, maxing)
  }

  lemma TacticFacts(cfg: Config, p: Position, maxing: bool, k: nat)
    requires Sound(p) && k < |Tactics(cfg, p, maxing)|
    ensures Tactics(cfg, p, maxing)[k] in LegalMoves(p, maxing)
    ensures OnBoardMove(Tactics(cfg, p, maxing)[k]) && Sound(Apply(p, Tactics(cfg, p, maxing)[k]))
    ensures IsCapture(p, Tactics(cfg, p, maxing)[k]) || GivesCheck(p, Tactics(cfg, p, maxing)[k], maxing)
  {
    var tac := Tactical(p, maxing, LegalMoves(p, maxing));
    var m := Tactics(cfg, p, maxing)[k];
    OrderPermutes(cfg.order, p, tac, maxing);
    assert m in multiset(Tactics(cfg, p, maxing));
    LegalPreservesSound(p, maxing, m);
  }

  // ------------------------------------------------------------ the game

  /** The game one file searches.  A position that is not sound never
      arises in play; the game treats it as over, with score 0. */
  function Chess(cfg: Config): Game<Position, Move>
  {
    Game(
      (p: Position) => !Sound(p) || Rules.GameOver(p),
      (p: Position, depth: nat) => if Sound(p) then ScoreTerminal(cfg.depthBonus, p, depth) else 0,
      (p: Position) => Eval(cfg.eval, p.grid),
      (p: Position, white: bool) => if Sound(p) then LegalMoves(p, white) else [],
      (p: Position, maxing: bool) => if Sound(p) then Children(cfg, p, maxing) else [],
      (p: Position, maxing: bool) => if Sound(p) then Tactics(cfg, p, maxing) else [],
      (p: Position, white: bool) => Rules.InCheck(p.grid, white),
      (p: Position, m: Move) => if OnBoardMove(m) then Apply(p, m) else p,
      cfg.leaf == Quiescent,
      cfg.mateCutoff)
  }

  /** On a sound position the game is the file's: over exactly when
      `isGameOver`, scored by `scoreTerminal` and `evaluate`, its moves the
      ordered legal moves and the ordered tactical ones. */
  lemma ChessSound(cfg: Config, p: Position, maxing: bool, depth: nat)
    requires Sound(p)
    ensures Chess(cfg).over(p) == Rules.GameOver(p)
    ensures Chess(cfg).terminal(p, depth) == ScoreTerminal(cfg.depthBonus, p, depth)
    ensures Chess(cfg).evaluate(p) == Eval(cfg.eval, p.grid)
    ensures Chess(cfg).legal(p, maxing) == LegalMoves(p, maxing)
    ensures Chess(cfg).moves(p, maxing) == Children(cfg, p, maxing)
    ensures Chess(cfg).tactics(p, maxing) == Tactics(cfg, p, maxing)
  {
  }

  /** `makeMove` plays every move the searches follow. */
  lemma ChessPlay(cfg: Config, p: Position, m: Move)
    requires OnBoardMove(m)
    ensures Chess(cfg).play(p, m) == Apply(p, m)
  {
  }

  /** Terminal scores are at most a mate score plus the depth, evaluations
      far smaller: every file's game is bounded by `MATE_SCORE`. */
  lemma ChessBounded(cfg: Config)
    ensures Bounded(Chess(cfg), MateScore)
  {
    var g := Chess(cfg);
    forall p, d: nat
      ensures -(MateScore + d) <= g.terminal(p, d) <= MateScore + d
    {
      if Sound(p) {
        TerminalMeaning(cfg.depthBonus, p, d);
      }
    }
    forall p
      ensures -MateScore <= g.evaluate(p) <= MateScore
    {
      EvalBounded(cfg.eval, p.grid);
    }
  }
}
