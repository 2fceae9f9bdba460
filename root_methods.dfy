/** The root searches and the iterative deepening as the source runs them:
    a loop over the engine's legal moves keeping the best score and its
    move, and a loop over the depths keeping the last depth's move.  Each
    method is proved to return what the function of the same name in
    `Roots` or `Deepening` defines, so the properties proved there hold of
    the loops. */
module RootMethods {
  import opened Wrappers
  import opened Evaluation
  import opened Search
  import opened Selection
  import opened PrincipalVariation
  import opened ForcedChecks
  import opened Roots
  import opened Deepening
  import opened SearchMethods

  /** One step of a root loop: keeping a strictly better score and its
      move keeps the pick over one more root move. */
  lemma PickStep<M>(ms: seq<M>, vs: seq<int>, maxing: bool, start: int, k: nat, bestMove: Option<M>, bestValue: int)
    requires |vs| == |ms| && k < |ms|
    requires var c := Select(maxing, vs[..k], start);
             bestMove == Picked(ms, c) && bestValue == c.value
    ensures var c := Select(maxing, vs[..k + 1], start);
            var better := Better(maxing, vs[k], bestValue);
            && (if better then Some(ms[k]) else bestMove) == Picked(ms, c)
            && (if better then vs[k] else bestValue) == c.value
  {
    SelectPrefix(maxing, vs, k, start);
  }

  /** Some of the first `k` scores is a mate for the side. */
  predicate MateAmong(white: bool, vs: seq<int>, k: nat)
    requires k <= |vs|
  {
    exists j | 0 <= j < k :: MateFor(white, vs[j])
  }

  /** One step of the loop that raises `mateFoundAtThisDepth`. */
  lemma MateAmongStep(white: bool, vs: seq<int>, k: nat)
    requires k < |vs|
    ensures MateAmong(white, vs, k + 1) == (MateAmong(white, vs, k) || MateFor(white, vs[k]))
  {
  }

  // ------------------------------------------------------------ single-depth roots

  /** `findBestMoveMinimax`. */
  method MinimaxRootSearch<P, M>(g: Game<P, M>, p: P, engineWhite: bool, depth: nat, fuel: nat) returns (bestMove: Option<M>)
    requires depth > 0
    ensures bestMove == MinimaxRoot(g, p, engineWhite, depth, fuel)
  {
    var moves := g.legal(p, engineWhite);
    if |moves| == 0 {
      return None;
    }
    ghost var vs := MinimaxValues(g, p, engineWhite, depth - 1, fuel);
    bestMove := None;
    var bestValue := Sentinel(engineWhite);
    var k := 0;
    assert vs[..0] == [];
    while k < |moves|
      invariant 0 <= k <= |moves|
      invariant var c := Select(engineWhite, vs[..k], Sentinel(engineWhite));
                bestMove == Picked(moves, c) && bestValue == c.value
      decreases |moves| - k
    {
      var value := MinimaxSearch(g, g.play(p, moves[k]), depth - 1, !engineWhite, fuel);
      PickStep(moves, vs, engineWhite, Sentinel(engineWhite), k, bestMove, bestValue);
      if Better(engineWhite, value, bestValue) {
        bestValue := value;
        bestMove := Some(moves[k]);
      }
      k := k + 1;
    }
    assert vs[..k] == vs;
  }

  /** `findBestMoveAlphaBeta` of `SearchEngine` and `AlphaBeta`: each
      root move searched with the window the earlier ones narrowed. */
  method AlphaBetaRootSearch<P, M>(g: Game<P, M>, p: P, engineWhite: bool, depth: nat, fuel: nat) returns (bestMove: Option<M>)
    requires depth > 0
    ensures bestMove == AlphaBetaRoot(g, p, engineWhite, depth, fuel)
  {
    var moves := g.legal(p, engineWhite);
    if |moves| == 0 {
      return None;
    }
    bestMove := None;
    ghost var best: Option<nat> := None;
    var alpha, beta := MinValue, MaxValue;
    var k := 0;
    while k < |moves|
      invariant 0 <= k <= |moves|
      invariant best.Some? ==> best.value < k
      invariant bestMove == if best.Some? then Some(moves[best.value]) else None
      invariant AlphaBetaRootLoop(g, p, engineWhite, depth - 1, fuel, k, alpha, beta, best)
                == AlphaBetaRootLoop(g, p, engineWhite, depth - 1, fuel, 0, MinValue, MaxValue, None)
      decreases |moves| - k
    {
      var value := AlphaBetaSearch(g, g.play(p, moves[k]), depth - 1, !engineWhite, alpha, beta, fuel);
      if engineWhite {
        if value > alpha {
          alpha := value;
          bestMove, best := Some(moves[k]), Some(k);
        }
      } else {
        if value < beta {
          beta := value;
          bestMove, best := Some(moves[k]), Some(k);
        }
      }
      k := k + 1;
    }
  }

  /** `findBestMoveDepth2` (and `findBestBlackMoveDepth2`): for each root
      move the opponent's best evaluated reply, then the root move whose
      worst case is best for the engine. */
  method Depth2Search<P, M>(g: Game<P, M>, p: P, engineWhite: bool) returns (bestMove: Option<M>)
    ensures bestMove == Depth2(g, p, engineWhite)
  {
    var rootMoves := g.legal(p, engineWhite);
    if |rootMoves| == 0 {
      return None;
    }
    ghost var ws := WorstCases(g, p, engineWhite);
    bestMove := None;
    var bestWorstValue := Sentinel(engineWhite);
    var k := 0;
    assert ws[..0] == [];
    while k < |rootMoves|
      invariant 0 <= k <= |rootMoves|
      invariant var c := Select(engineWhite, ws[..k], Sentinel(engineWhite));
                bestMove == Picked(rootMoves, c) && bestWorstValue == c.value
      decreases |rootMoves| - k
    {
      var b1 := g.play(p, rootMoves[k]);
      var replies := g.legal(b1, !engineWhite);
      var worstCase := Sentinel(!engineWhite);
      var j := 0;
      while j < |replies|
        invariant 0 <= j <= |replies|
        invariant worstCase == WorstCase(g, b1, engineWhite, j)
        decreases |replies| - j
      {
        var value := g.evaluate(g.play(b1, replies[j]));
        worstCase := if engineWhite then Min(worstCase, value) else Max(worstCase, value);
        j := j + 1;
      }
      PickStep(rootMoves, ws, engineWhite, Sentinel(engineWhite), k, bestMove, bestWorstValue);
      if Better(engineWhite, worstCase, bestWorstValue) {
        bestWorstValue := worstCase;
        bestMove := Some(rootMoves[k]);
      }
      k := k + 1;
    }
    assert ws[..k] == ws;
  }

  /** The plies below a root move of `findBestBlackMoveDepth5`, searched
      into one running maximum as the source's nested loops do: a reply
      that ends the game, or one at the last ply, adds its value; any other
      adds the maximum over its own replies. */
  method Depth5Accumulate<P, M>(g: Game<P, M>, q: P, white: bool, plies: nat, worst: int) returns (worst': int)
    requires plies > 0 && worst >= MinValue
    ensures worst' == Max(worst, Depth5Worst(g, q, white, plies))
    decreases plies
  {
    var replies := g.legal(q, white);
    if |replies| == 0 {
      return Max(worst, g.terminal(q, 0));
    }
    worst' := worst;
    var j := 0;
    while j < |replies|
      invariant 0 <= j <= |replies|
      invariant worst' == Max(worst, Depth5Over(g, q, white, plies, j))
      decreases |replies| - j
    {
      var r := g.play(q, replies[j]);
      if g.over(r) {
        worst' := Max(worst', g.terminal(r, 0));
      } else if plies == 1 {
        worst' := Max(worst', g.evaluate(r));
      } else {
        worst' := Depth5Accumulate(g, r, !white, plies - 1, worst');
      }
      j := j + 1;
    }
  }

  /** `findBestBlackMoveDepth5`: black's root move whose running maximum
      over the four plies below is smallest. */
  method BlackDepth5Search<P, M>(g: Game<P, M>, p: P) returns (bestMove: Option<M>)
    ensures bestMove == BlackDepth5(g, p)
  {
    var rootMoves := g.legal(p, false);
    if |rootMoves| == 0 {
      return None;
    }
    ghost var vs := Depth5Values(g, p);
    bestMove := None;
    var bestWorstVal := MaxValue;
    var k := 0;
    assert vs[..0] == [];
    while k < |rootMoves|
      invariant 0 <= k <= |rootMoves|
      invariant var c := Select(false, vs[..k], MaxValue);
                bestMove == Picked(rootMoves, c) && bestWorstVal == c.value
      decreases |rootMoves| - k
    {
      var b1 := g.play(p, rootMoves[k]);
      var value;
      if g.over(b1) {
        value := g.terminal(b1, 0);
      } else {
        value := Depth5Accumulate(g, b1, true, 4, MinValue);
        var replies := g.legal(b1, true);
        if |replies| > 0 {
          Depth5Maximises(g, b1, true, 4, |replies|);
        }
      }
      PickStep(rootMoves, vs, false, MaxValue, k, bestMove, bestWorstVal);
      if value < bestWorstVal {
        bestWorstVal := value;
        bestMove := Some(rootMoves[k]);
      }
      k := k + 1;
    }
    assert vs[..k] == vs;
  }

  // ------------------------------------------------------------ deepening

  /** One depth of `SearchEngine.findBestMoveMinimaxTimed`: the minimax
      root at the depth, its pick replacing the move kept. */
  method MinimaxRound<P, M>(g: Game<P, M>, p: P, engineWhite: bool, fuel: nat, depth: nat, left: nat, best: M,
                            ghost pick: nat -> Option<M>, ghost done: nat -> bool)
    returns (best': M)
    requires depth > 0 && left > 0
    requires forall d: nat {:trigger MinimaxMove(g, p, engineWhite, fuel, d)} :: pick(d) == MinimaxMove(g, p, engineWhite, fuel, d)
    requires forall d: nat :: !done(d)
    ensures Deepen(pick, done, depth, 1, left, best) == Deepen(pick, done, depth + 1, 1, left - 1, best')
  {
    var current := MinimaxRootSearch(g, p, engineWhite, depth, fuel);
    best' := if current.Some? then current.value else best;
    assert MinimaxMove(g, p, engineWhite, fuel, depth) == current;
    DeepenStep(pick, done, depth, 1, left, best, current, false);
  }

  /** The depth loop of `SearchEngine.findBestMoveMinimaxTimed`: depths
      1, 2, 3, ... for the `rounds` depths the clock allows, each depth's
      pick replacing the move kept. */
  method MinimaxDeepening<P, M>(g: Game<P, M>, p: P, engineWhite: bool, rounds: nat, fuel: nat, first: M,
                                ghost pick: nat -> Option<M>, ghost done: nat -> bool)
    returns (best: M)
    requires forall d: nat {:trigger MinimaxMove(g, p, engineWhite, fuel, d)} :: pick(d) == MinimaxMove(g, p, engineWhite, fuel, d)
    requires forall d: nat :: !done(d)
    ensures best == Deepen(pick, done, 1, 1, rounds, first)
  {
    best := first;
    var depth := 1;
    var i := 0;
    while i < rounds
      invariant 0 <= i <= rounds && depth == i + 1
      invariant Deepen(pick, done, depth, 1, rounds - i, best) == Deepen(pick, done, 1, 1, rounds, first)
      decreases rounds - i
    {
      best := MinimaxRound(g, p, engineWhite, fuel, depth, rounds - i, best, pick, done);
      depth, i := depth + 1, i + 1;
    }
  }

  /** `SearchEngine.findBestMoveMinimaxTimed`: no move when there is none,
      else the deepening from the first legal move. */
  method MinimaxTimedSearch<P, M>(g: Game<P, M>, p: P, engineWhite: bool, rounds: nat, fuel: nat) returns (bestMove: Option<M>)
    ensures bestMove == MinimaxTimed(g, p, engineWhite, rounds, fuel)
  {
    var moves := g.legal(p, engineWhite);
    if |moves| == 0 {
      return None;
    }
    var best := MinimaxDeepening(g, p, engineWhite, rounds, fuel, moves[0],
                                 (d: nat) => MinimaxMove(g, p, engineWhite, fuel, d), (d: nat) => false);
    return Some(best);
  }

  /** One depth of `SearchEngine.findBestMoveAlphaBetaTimed`: each root
      move's full-window score plus the depth, the first strictly best
      kept. */
  method TimedPickSearch<P, M>(g: Game<P, M>, p: P, engineWhite: bool, depth: nat, fuel: nat) returns (currentBest: Option<M>)
    requires depth > 0
    ensures currentBest == TimedMove(g, p, engineWhite, fuel, depth)
  {
    var moves := g.legal(p, engineWhite);
    ghost var vs := TimedValues(g, p, engineWhite, depth, fuel);
    currentBest := None;
    var alpha := Sentinel(engineWhite);
    var k := 0;
    assert vs[..0] == [];
    while k < |moves|
      invariant 0 <= k <= |moves|
      invariant var c := Select(engineWhite, vs[..k], Sentinel(engineWhite));
                currentBest == Picked(moves, c) && alpha == c.value
      decreases |moves| - k
    {
      var value := AlphaBetaSearch(g, g.play(p, moves[k]), depth - 1, !engineWhite, MinValue, MaxValue, fuel);
      value := value + depth;
      PickStep(moves, vs, engineWhite, Sentinel(engineWhite), k, currentBest, alpha);
      if Better(engineWhite, value, alpha) {
        alpha := value;
        currentBest := Some(moves[k]);
      }
      k := k + 1;
    }
    assert vs[..k] == vs;
  }

  /** One depth of `SearchEngine.findBestMoveAlphaBetaTimed`, its pick
      replacing the move kept. */
  method TimedRound<P, M>(g: Game<P, M>, p: P, engineWhite: bool, fuel: nat, depth: nat, left: nat, best: M,
                          ghost pick: nat -> Option<M>, ghost done: nat -> bool)
    returns (best': M)
    requires depth > 0 && left > 0
    requires forall d: nat {:trigger TimedMove(g, p, engineWhite, fuel, d)} :: pick(d) == TimedMove(g, p, engineWhite, fuel, d)
    requires forall d: nat :: !done(d)
    ensures Deepen(pick, done, depth, 1, left, best) == Deepen(pick, done, depth + 1, 1, left - 1, best')
  {
    var current := TimedPickSearch(g, p, engineWhite, depth, fuel);
    best' := if current.Some? then current.value else best;
    DeepenStep(pick, done, depth, 1, left, best, current, false);
  }

  /** The depth loop of `SearchEngine.findBestMoveAlphaBetaTimed`. */
  method TimedDeepening<P, M>(g: Game<P, M>, p: P, engineWhite: bool, rounds: nat, fuel: nat, first: M,
                              ghost pick: nat -> Option<M>, ghost done: nat -> bool)
    returns (best: M)
    requires forall d: nat {:trigger TimedMove(g, p, engineWhite, fuel, d)} :: pick(d) == TimedMove(g, p, engineWhite, fuel, d)
    requires forall d: nat :: !done(d)
    ensures best == Deepen(pick, done, 1, 1, rounds, first)
  {
    best := first;
    var depth := 1;
    var i := 0;
    while i < rounds
      invariant 0 <= i <= rounds && depth == i + 1
      invariant Deepen(pick, done, depth, 1, rounds - i, best) == Deepen(pick, done, 1, 1, rounds, first)
      decreases rounds - i
    {
      best := TimedRound(g, p, engineWhite, fuel, depth, rounds - i, best, pick, done);
      depth, i := depth + 1, i + 1;
    }
  }

  /** `SearchEngine.findBestMoveAlphaBetaTimed`. */
  method AlphaBetaTimedSearch<P, M>(g: Game<P, M>, p: P, engineWhite: bool, rounds: nat, fuel: nat) returns (bestMove: Option<M>)
    ensures bestMove == AlphaBetaTimed(g, p, engineWhite, rounds, fuel)
  {
    var moves := g.legal(p, engineWhite);
    if |moves| == 0 {
      return None;
    }
    var best := TimedDeepening(g, p, engineWhite, rounds, fuel, moves[0],
                               (d: nat) => TimedMove(g, p, engineWhite, fuel, d), (d: nat) => false);
    return Some(best);
  }

  /** One depth of `AlphaBetaB.findBestMoveAlphaBetaTimed`: the first
      strictly best move by full-window value, and whether any root move
      scored a mate for the engine. */
  method FullPickSearch<P, M>(g: Game<P, M>, p: P, engineWhite: bool, depth: nat, fuel: nat)
    returns (currentBest: Option<M>, mateFound: bool)
    requires depth > 0
    ensures currentBest == FullPick(g, p, engineWhite, depth, fuel)
    ensures mateFound == MateFound(g, p, engineWhite, depth, fuel)
  {
    var moves := g.legal(p, engineWhite);
    ghost var vs := FullValues(g, p, engineWhite, depth - 1, fuel);
    currentBest, mateFound := None, false;
    var alpha := Sentinel(engineWhite);
    var k := 0;
    assert vs[..0] == [];
    while k < |moves|
      invariant 0 <= k <= |moves|
      invariant var c := Select(engineWhite, vs[..k], Sentinel(engineWhite));
                currentBest == Picked(moves, c) && alpha == c.value
      invariant mateFound == MateAmong(engineWhite, vs, k)
      decreases |moves| - k
    {
      var value := AlphaBetaSearch(g, g.play(p, moves[k]), depth - 1, !engineWhite, MinValue, MaxValue, fuel);
      PickStep(moves, vs, engineWhite, Sentinel(engineWhite), k, currentBest, alpha);
      MateAmongStep(engineWhite, vs, k);
      if Better(engineWhite, value, alpha) {
        alpha := value;
        currentBest := Some(moves[k]);
      }
      if MateFor(engineWhite, value) {
        mateFound := true;
      }
      k := k + 1;
    }
    assert vs[..k] == vs;
  }

  /** One depth of `AlphaBetaB.findBestMoveAlphaBetaTimed`: its pick
      replaces the move kept, and a mate found stops the deepening. */
  method FullRound<P, M>(g: Game<P, M>, p: P, engineWhite: bool, fuel: nat, depth: nat, left: nat, best: M,
                         ghost pick: nat -> Option<M>, ghost done: nat -> bool)
    returns (best': M, stop: bool)
    requires depth > 0 && left > 0
    requires forall d: nat {:trigger FullMove(g, p, engineWhite, fuel, d)} :: pick(d) == FullMove(g, p, engineWhite, fuel, d)
    requires forall d: nat {:trigger FullMate(g, p, engineWhite, fuel, d)} :: done(d) == FullMate(g, p, engineWhite, fuel, d)
    ensures Deepen(pick, done, depth, 1, left, best) == if stop then best' else Deepen(pick, done, depth + 1, 1, left - 1, best')
  {
    var current;
    current, stop := FullPickSearch(g, p, engineWhite, depth, fuel);
    best' := if current.Some? then current.value else best;
    assert FullMove(g, p, engineWhite, fuel, depth) == current && FullMate(g, p, engineWhite, fuel, depth) == stop;
    DeepenStep(pick, done, depth, 1, left, best, current, stop);
  }

  /** The depth loop of `AlphaBetaB.findBestMoveAlphaBetaTimed`: depths
      1, 2, 3, ... until the clock runs out or a depth finds a mate for the
      engine. */
  method FullDeepening<P, M>(g: Game<P, M>, p: P, engineWhite: bool, rounds: nat, fuel: nat, first: M,
                             ghost pick: nat -> Option<M>, ghost done: nat -> bool)
    returns (best: M)
    requires forall d: nat {:trigger FullMove(g, p, engineWhite, fuel, d)} :: pick(d) == FullMove(g, p, engineWhite, fuel, d)
    requires forall d: nat {:trigger FullMate(g, p, engineWhite, fuel, d)} :: done(d) == FullMate(g, p, engineWhite, fuel, d)
    ensures best == Deepen(pick, done, 1, 1, rounds, first)
  {
    best := first;
    var depth := 1;
    var i := 0;
    while i < rounds
      invariant 0 <= i <= rounds && depth == i + 1
      invariant Deepen(pick, done, depth, 1, rounds - i, best) == Deepen(pick, done, 1, 1, rounds, first)
      decreases rounds - i
    {
      var stop;
      best, stop := FullRound(g, p, engineWhite, fuel, depth, rounds - i, best, pick, done);
      if stop {
        return;
      }
      depth, i := depth + 1, i + 1;
    }
  }

  /** `AlphaBetaB.findBestMoveAlphaBetaTimed`. */
  method AlphaBetaBTimedSearch<P, M>(g: Game<P, M>, p: P, engineWhite: bool, rounds: nat, fuel: nat) returns (bestMove: Option<M>)
    ensures bestMove == AlphaBetaBTimed(g, p, engineWhite, rounds, fuel)
  {
    var moves := g.legal(p, engineWhite);
    if |moves| == 0 {
      return None;
    }
    var best := FullDeepening(g, p, engineWhite, rounds, fuel, moves[0],
                              (d: nat) => FullMove(g, p, engineWhite, fuel, d), (d: nat) => FullMate(g, p, engineWhite, fuel, d));
    return Some(best);
  }

  /** One depth of `AlphaBeta.findBestMoveAlphaBetaTimed`: the full-window
      pick of `AlphaBetaB`'s root, its mate flag unused, replacing the move
      kept. */
  method PlainRound<P, M>(g: Game<P, M>, p: P, engineWhite: bool, fuel: nat, depth: nat, left: nat, best: M,
                          ghost pick: nat -> Option<M>, ghost done: nat -> bool)
    returns (best': M)
    requires depth > 0 && left > 0
    requires forall d: nat {:trigger FullMove(g, p, engineWhite, fuel, d)} :: pick(d) == FullMove(g, p, engineWhite, fuel, d)
    requires forall d: nat :: !done(d)
    ensures Deepen(pick, done, depth, 1, left, best) == Deepen(pick, done, depth + 1, 1, left - 1, best')
  {
    var current, _ := FullPickSearch(g, p, engineWhite, depth, fuel);
    best' := if current.Some? then current.value else best;
    assert FullMove(g, p, engineWhite, fuel, depth) == current;
    DeepenStep(pick, done, depth, 1, left, best, current, false);
  }

  /** The depth loop of `AlphaBeta.findBestMoveAlphaBetaTimed`: depths
      1, 2, 3, ... for the `rounds` depths the clock allows. */
  method PlainDeepening<P, M>(g: Game<P, M>, p: P, engineWhite: bool, rounds: nat, fuel: nat, first: M,
                              ghost pick: nat -> Option<M>, ghost done: nat -> bool)
    returns (best: M)
    requires forall d: nat {:trigger FullMove(g, p, engineWhite, fuel, d)} :: pick(d) == FullMove(g, p, engineWhite, fuel, d)
    requires forall d: nat :: !done(d)
    ensures best == Deepen(pick, done, 1, 1, rounds, first)
  {
    best := first;
    var depth := 1;
    var i := 0;
    while i < rounds
      invariant 0 <= i <= rounds && depth == i + 1
      invariant Deepen(pick, done, depth, 1, rounds - i, best) == Deepen(pick, done, 1, 1, rounds, first)
      decreases rounds - i
    {
      best := PlainRound(g, p, engineWhite, fuel, depth, rounds - i, best, pick, done);
      depth, i := depth + 1, i + 1;
    }
  }

  /** `AlphaBeta.findBestMoveAlphaBetaTimed`. */
  method AlphaBetaPlainTimedSearch<P, M>(g: Game<P, M>, p: P, engineWhite: bool, rounds: nat, fuel: nat) returns (bestMove: Option<M>)
    ensures bestMove == AlphaBetaPlainTimed(g, p, engineWhite, rounds, fuel)
  {
    var moves := g.legal(p, engineWhite);
    if |moves| == 0 {
      return None;
    }
    var best := PlainDeepening(g, p, engineWhite, rounds, fuel, moves[0],
                               (d: nat) => FullMove(g, p, engineWhite, fuel, d), (d: nat) => false);
    return Some(best);
  }

  /** A root move's search in `AlphaBetaC2` and `BetterSquares`: the
      forced-check search when the move gives check, else the alpha-beta
      search with its line. */
  method RootResultSearch<P, M>(g: Game<P, M>, p: P, engineWhite: bool, guarded: bool, depth: nat, fuel: nat, k: nat)
    returns (res: SearchResult<M>)
    requires k < |g.legal(p, engineWhite)|
    ensures res == RootResult(g, p, engineWhite, guarded, depth, fuel, k)
  {
    var next := g.play(p, g.legal(p, engineWhite)[k]);
    if g.checked(next, !engineWhite) {
      res := CheckSearchMethod(g, next, engineWhite, true, guarded, 3);
    } else {
      res := AlphaBetaPVSearch(g, next, depth, !engineWhite, MinValue, MaxValue, fuel);
    }
  }

  /** The root loop of `AlphaBetaC2` and `BetterSquares` over scores known
      only move by move: a strictly better score is kept with its move, and
      a score that is a mate for the engine ends the loop. */
  method CheckingPickLoop<P, M>(g: Game<P, M>, p: P, engineWhite: bool, guarded: bool, sub: nat, fuel: nat,
                                ghost scores: seq<int>)
    returns (currentBest: Option<M>, alpha: int)
    requires |scores| == |g.legal(p, engineWhite)|
    requires forall k {:trigger RootResult(g, p, engineWhite, guarded, sub, fuel, k)} | 0 <= k < |scores| ::
               scores[k] == RootResult(g, p, engineWhite, guarded, sub, fuel, k).score
    ensures var c := SelectStop(engineWhite, scores, 0, Choice(None, Sentinel(engineWhite)));
            currentBest == Picked(g.legal(p, engineWhite), c) && alpha == c.value
  {
    var moves := g.legal(p, engineWhite);
    ghost var index: Option<nat> := None;
    currentBest := None;
    alpha := Sentinel(engineWhite);
    var k := 0;
    while k < |moves|
      invariant 0 <= k <= |moves|
      invariant index.Some? ==> index.value < |moves|
      invariant currentBest == Picked(moves, Choice(index, alpha))
      invariant SelectStop(engineWhite, scores, k, Choice(index, alpha))
                == SelectStop(engineWhite, scores, 0, Choice(None, Sentinel(engineWhite)))
      decreases |moves| - k
    {
      var res := RootResultSearch(g, p, engineWhite, guarded, sub, fuel, k);
      if Better(engineWhite, res.score, alpha) {
        alpha := res.score;
        currentBest, index := Some(moves[k]), Some(k);
      }
      if MateFor(engineWhite, res.score) {
        return;
      }
      k := k + 1;
    }
  }

  /** One depth of the root of `AlphaBetaC2` and `BetterSquares`: each
      root move searched one ply shallower. */
  method CheckingPickSearch<P, M>(g: Game<P, M>, p: P, engineWhite: bool, guarded: bool, depth: nat, fuel: nat)
    returns (currentBest: Option<M>, alpha: int)
    requires depth > 0
    ensures currentBest == CheckingMove(g, p, engineWhite, guarded, fuel, depth)
    ensures alpha == CheckingPick(g, p, engineWhite, guarded, depth, fuel).value
  {
    currentBest, alpha := CheckingPickLoop(g, p, engineWhite, guarded, depth - 1, fuel,
                                           RootScores(g, p, engineWhite, guarded, depth - 1, fuel));
  }

  /** The deepening of `AlphaBetaC2` and `BetterSquares`: depths 1, 3,
      5, ... for `left` depths, stopping after a depth whose score is a
      mate for the engine. */
  method CheckingTimedSearch<P, M>(g: Game<P, M>, p: P, engineWhite: bool, guarded: bool, left: nat, fuel: nat)
    returns (bestMove: Option<M>)
    ensures bestMove == CheckingTimed(g, p, engineWhite, guarded, left, fuel)
  {
    var moves := g.legal(p, engineWhite);
    if |moves| == 0 {
      return None;
    }
    ghost var pick := (d: nat) => CheckingMove(g, p, engineWhite, guarded, fuel, d);
    ghost var done := (d: nat) => CheckingMate(g, p, engineWhite, guarded, fuel, d);
    var best := moves[0];
    var depth := 1;
    var i := 0;
    while i < left
      invariant 0 <= i <= left && depth == DepthAt(1, 2, i)
      invariant Deepen(pick, done, depth, 2, left - i, best) == Deepen(pick, done, 1, 2, left, moves[0])
      decreases left - i
    {
      var current, alpha := CheckingPickSearch(g, p, engineWhite, guarded, depth, fuel);
      if current.Some? {
        best := current.value;
      }
      if MateFor(engineWhite, alpha) {
        return Some(best);
      }
      DepthAtNext(1, 2, i);
      depth, i := depth + 2, i + 1;
    }
    return Some(best);
  }

  /** `AlphaBetaC2.findBestMoveAlphaBetaTimed`. */
  method AlphaBetaC2TimedSearch<P, M>(g: Game<P, M>, p: P, engineWhite: bool, rounds: nat, fuel: nat) returns (bestMove: Option<M>)
    ensures bestMove == AlphaBetaC2Timed(g, p, engineWhite, rounds, fuel)
  {
    bestMove := CheckingTimedSearch(g, p, engineWhite, false, rounds, fuel);
  }

  /** `BetterSquares.findBestMoveAlphaBetaTimed`: depths 1 and 3 are
      searched whatever the clock says. */
  method BetterSquaresTimedSearch<P, M>(g: Game<P, M>, p: P, engineWhite: bool, rounds: nat, fuel: nat) returns (bestMove: Option<M>)
    ensures bestMove == BetterSquaresTimed(g, p, engineWhite, rounds, fuel)
  {
    bestMove := CheckingTimedSearch(g, p, engineWhite, true, if rounds < 2 then 2 else rounds, fuel);
  }
}
