/** The game-tree searches of `ai.SearchEngine`, `ai.AlphaBeta`,
    `ai.AlphaBetaB`, `ai.AlphaBetaC2` and `ai.BetterSquares`, written once
    over what a search sees of the game: whether a position is over, its
    terminal score, its static evaluation, the moves a node searches (in
    the order it searches them), the moves the quiescence search follows,
    and the position a move leads to.  The five files repeat one alpha-beta
    with small differences; those that concern the algorithm are the two
    flags of `Game` (quiescence at the leaves, the mate cutoff), the rest
    is in how `ChessSearch.Chess` builds the game.  Beside each search
    stands its reference: plain minimax for alpha-beta, a window-free
    quiescence for the fail-hard one. */
module Search {
  import opened Evaluation

  /** A game as the searches see it, for positions `P` and moves `M`.
      `legal(p, white)` are the moves of one side as the generator lists
      them, `moves(p, maxing)` the same moves in the order a search node
      tries them (white's when `maxing`), `tactics` those the quiescence
      search follows, and `checked(p, white)` says whether that side is in
      check. */
  datatype Game<!P, !M> = Game(
    over: P -> bool,
    terminal: (P, nat) -> int,
    evaluate: P -> int,
    legal: (P, bool) -> seq<M>,
    moves: (P, bool) -> seq<M>,
    tactics: (P, bool) -> seq<M>,
    checked: (P, bool) -> bool,
    play: (P, M) -> P,
    quiescent: bool,
    mateCutoff: bool)

  function Max(a: int, b: int): int { if a >= b then a else b }
  function Min(a: int, b: int): int { if a <= b then a else b }

  /** The value a node starts from: `Integer.MIN_VALUE` for white,
      `Integer.MAX_VALUE` for black. */
  function Sentinel(maxing: bool): int { if maxing then MinValue else MaxValue }

  /** The position after the k-th move a node searches. */
  function Child<P, M>(g: Game<P, M>, p: P, maxing: bool, k: nat): P
    requires k < |g.moves(p, maxing)|
  {
    g.play(p, g.moves(p, maxing)[k])
  }

  /** The position after the k-th move the quiescence search follows. */
  function Tactic<P, M>(g: Game<P, M>, p: P, maxing: bool, k: nat): P
    requires k < |g.tactics(p, maxing)|
  {
    g.play(p, g.tactics(p, maxing)[k])
  }

  // ------------------------------------------------------------ quiescence

  /** `quiescence`, fail-hard: game over scores the terminal value; the
      static evaluation stands pat against the window; then the tactical
      moves are searched, a cutoff returning the bound itself.  The search
      has no depth: `fuel` bounds it, and a node reached with none left is
      treated as having no tactical move. */
  function Quiescence<P, M>(g: Game<P, M>, p: P, alpha: int, beta: int, maxing: bool, fuel: nat): int
    decreases fuel, 1, 0
  {
    if g.over(p) then g.terminal(p, 0)
    else
      var standPat := g.evaluate(p);
      if maxing && standPat >= beta then beta
      else if !maxing && standPat <= alpha then alpha
      else
        var alpha', beta' := if maxing then Max(alpha, standPat) else alpha, if maxing then beta else Min(beta, standPat);
        if fuel == 0 then (if maxing then alpha' else beta')
        else QLoop(g, p, maxing, fuel, 0, alpha', beta')
  }

  /** The loop over the tactical moves from the k-th on. */
  function QLoop<P, M>(g: Game<P, M>, p: P, maxing: bool, fuel: nat, k: nat, alpha: int, beta: int): int
    requires fuel > 0 && k <= |g.tactics(p, maxing)|
    decreases fuel, 0, |g.tactics(p, maxing)| - k
  {
    if k == |g.tactics(p, maxing)| then (if maxing then alpha else beta)
    else
      var score := Quiescence(g, Tactic(g, p, maxing, k), alpha, beta, !maxing, fuel - 1);
      if maxing then
        (if Max(alpha, score) >= beta then beta else QLoop(g, p, maxing, fuel, k + 1, Max(alpha, score), beta))
      else
        (if Min(beta, score) <= alpha then alpha else QLoop(g, p, maxing, fuel, k + 1, alpha, Min(beta, score)))
  }

  /** The value quiescence approximates: stand pat, or the best tactical
      continuation when it is better for the side to move. */
  function QRef<P, M>(g: Game<P, M>, p: P, maxing: bool, fuel: nat): int
    decreases fuel, 1, 0
  {
    if g.over(p) then g.terminal(p, 0)
    else if fuel == 0 then g.evaluate(p)
    else QRefOver(g, p, maxing, fuel, |g.tactics(p, maxing)|)
  }

  /** The stand-pat value combined with the first k tactical moves. */
  function QRefOver<P, M>(g: Game<P, M>, p: P, maxing: bool, fuel: nat, k: nat): int
    requires fuel > 0 && k <= |g.tactics(p, maxing)|
    decreases fuel, 0, k
  {
    if k == 0 then g.evaluate(p)
    else
      var child := QRef(g, Tactic(g, p, maxing, k - 1), !maxing, fuel - 1);
      if maxing then Max(QRefOver(g, p, maxing, fuel, k - 1), child)
      else Min(QRefOver(g, p, maxing, fuel, k - 1), child)
  }

  // ------------------------------------------------------------ alpha-beta

  /** A leaf: the terminal score on game over, else the evaluation or the
      quiescence search. */
  function LeafValue<P, M>(g: Game<P, M>, p: P, depth: nat, maxing: bool, alpha: int, beta: int, fuel: nat): int
  {
    if g.over(p) then g.terminal(p, depth)
    else if !g.quiescent then g.evaluate(p)
    else Quiescence(g, p, alpha, beta, maxing, fuel)
  }

  /** `alphabeta` / `alphabetaTimed`: leaves at depth 0 or game over; a side
      without moves scores terminally; otherwise the loop over the children. */
  function AlphaBeta<P, M>(g: Game<P, M>, p: P, depth: nat, maxing: bool, alpha: int, beta: int, fuel: nat): int
    decreases depth, 1, 0
  {
    if depth == 0 || g.over(p) then LeafValue(g, p, depth, maxing, alpha, beta, fuel)
    else if |g.moves(p, maxing)| == 0 then g.terminal(p, depth)
    else ABLoop(g, p, depth, maxing, fuel, 0, Sentinel(maxing), alpha, beta)
  }

  /** The children from the k-th on, with the running value and window: the
      value takes each child's score, the window narrows by it, and the loop
      stops once the window closes or, with the mate cutoff, once the value
      is a mate score for the node's side. */
  function ABLoop<P, M>(g: Game<P, M>, p: P, depth: nat, maxing: bool, fuel: nat, k: nat, value: int, alpha: int, beta: int): int
    requires depth > 0 && k <= |g.moves(p, maxing)|
    decreases depth, 0, |g.moves(p, maxing)| - k
  {
    if k == |g.moves(p, maxing)| then value
    else
      var child := AlphaBeta(g, Child(g, p, maxing, k), depth - 1, !maxing, alpha, beta, fuel);
      if maxing then
        var v := Max(value, child);
        if Max(alpha, v) >= beta || (g.mateCutoff && v >= MateScore) then v
        else ABLoop(g, p, depth, maxing, fuel, k + 1, v, Max(alpha, v), beta)
      else
        var v := Min(value, child);
        if Min(beta, v) <= alpha || (g.mateCutoff && v <= -MateScore) then v
        else ABLoop(g, p, depth, maxing, fuel, k + 1, v, alpha, Min(beta, v))
  }

  /** The leaf of the reference: quiescence replaced by its window-free value. */
  function LeafRef<P, M>(g: Game<P, M>, p: P, depth: nat, maxing: bool, fuel: nat): int
  {
    if g.over(p) then g.terminal(p, depth)
    else if !g.quiescent then g.evaluate(p)
    else QRef(g, p, maxing, fuel)
  }

  /** `minimax`: every child searched, the best for the node's side kept,
      starting from the sentinel. */
  function Minimax<P, M>(g: Game<P, M>, p: P, depth: nat, maxing: bool, fuel: nat): int
    decreases depth, 1, 0
  {
    if depth == 0 || g.over(p) then LeafRef(g, p, depth, maxing, fuel)
    else if |g.moves(p, maxing)| == 0 then g.terminal(p, depth)
    else Best(g, p, depth, maxing, fuel, |g.moves(p, maxing)|)
  }

  /** The best minimax value over the first k children. */
  function Best<P, M>(g: Game<P, M>, p: P, depth: nat, maxing: bool, fuel: nat, k: nat): int
    requires depth > 0 && k <= |g.moves(p, maxing)|
    decreases depth, 0, k
  {
    if k == 0 then Sentinel(maxing)
    else
      var child := Minimax(g, Child(g, p, maxing, k - 1), depth - 1, !maxing, fuel);
      if maxing then Max(Best(g, p, depth, maxing, fuel, k - 1), child)
      else Min(Best(g, p, depth, maxing, fuel, k - 1), child)
  }
}
