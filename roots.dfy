/** The fixed-depth root searches: `findBestMoveMinimax`,
    `findBestMoveAlphaBeta`, `findBestMoveDepth2`, `findBestBlackMoveDepth2`
    and `findBestBlackMoveDepth5` of `ai.SearchEngine`, and the
    `findBestMoveAlphaBeta` and `findBestMoveDepth2` of `ai.AlphaBeta`.
    Each walks the engine's legal moves in generation order, scores the
    position each leads to, and keeps a move only when its score is strictly
    better for the engine than the best so far; it returns `null` (`None`)
    when the engine has no move. */
module Roots {
  import opened Wrappers
  import opened Evaluation
  import opened Search
  import opened SearchFacts
  import opened Selection

  /** The move a pick names among the root moves, or `null`. */
  function Picked<M>(ms: seq<M>, c: Choice): (r: Option<M>)
    ensures r.Some? <==> c.index.Some? && c.index.value < |ms|
    ensures r.Some? ==> r.value == ms[c.index.value]
  {
    if c.index.Some? && c.index.value < |ms| then Some(ms[c.index.value]) else None
  }

  /** The position after the engine's k-th legal move. */
  function RootChild<P, M>(g: Game<P, M>, p: P, engineWhite: bool, k: nat): P
    requires k < |g.legal(p, engineWhite)|
  {
    g.play(p, g.legal(p, engineWhite)[k])
  }

  /** Every entry strictly inside the int sentinels beats the sentinel of
      either side. */
  lemma InsideSentinels(maxing: bool, scores: seq<int>, bound: int)
    requires bound < MaxValue
    requires forall k | 0 <= k < |scores| :: -bound <= scores[k] <= bound
    ensures var c := Select(maxing, scores, Sentinel(maxing));
            && (c.index.None? <==> |scores| == 0)
            && (c.index.Some? ==>
                  && c.index.value < |scores| && c.value == scores[c.index.value]
                  && (forall j | 0 <= j < |scores| :: !Better(maxing, scores[j], c.value))
                  && (forall j | 0 <= j < c.index.value :: Better(maxing, c.value, scores[j])))
  {
    SelectFirstBest(maxing, scores, Sentinel(maxing));
    if |scores| > 0 {
      assert Better(maxing, scores[0], Sentinel(maxing));
    }
  }

  // ------------------------------------------------------------ minimax root

  /** The minimax value of each root move's position, `depth` plies deep. */
  function MinimaxValues<P, M>(g: Game<P, M>, p: P, engineWhite: bool, depth: nat, fuel: nat): (vs: seq<int>)
    ensures |vs| == |g.legal(p, engineWhite)|
    ensures forall k | 0 <= k < |vs| :: vs[k] == Minimax(g, RootChild(g, p, engineWhite, k), depth, !engineWhite, fuel)
  {
    var n := |g.legal(p, engineWhite)|;
    seq(n, k requires 0 <= k < n => Minimax(g, RootChild(g, p, engineWhite, k), depth, !engineWhite, fuel))
  }

  /** `findBestMoveMinimax`: the first move whose minimax value at
      `depth - 1` is strictly the best for the engine.  Java's `depth - 1`
      of a zero depth never reaches 0, so callers pass a positive depth. */
  function MinimaxRoot<P, M>(g: Game<P, M>, p: P, engineWhite: bool, depth: nat, fuel: nat): Option<M>
    requires depth > 0
  {
    var ms := g.legal(p, engineWhite);
    if |ms| == 0 then None
    else Picked(ms, Select(engineWhite, MinimaxValues(g, p, engineWhite, depth - 1, fuel), Sentinel(engineWhite)))
  }

  /** Values off the sentinels: the root returns `null` exactly when the
      engine has no legal move, and otherwise the first legal move whose
      value is the best for the engine. */
  lemma MinimaxRootFirstBest<P(!new), M>(g: Game<P, M>, p: P, engineWhite: bool, depth: nat, fuel: nat, bound: int)
    requires depth > 0 && Bounded(g, bound) && bound + depth < MaxValue
    ensures var r, ms, vs := MinimaxRoot(g, p, engineWhite, depth, fuel), g.legal(p, engineWhite),
                             MinimaxValues(g, p, engineWhite, depth - 1, fuel);
            && (r.None? <==> |ms| == 0)
            && (r.Some? ==> exists k | 0 <= k < |ms| ::
                  && r.value == ms[k]
                  && (forall j | 0 <= j < |ms| :: !Better(engineWhite, vs[j], vs[k]))
                  && (forall j | 0 <= j < k :: Better(engineWhite, vs[k], vs[j])))
  {
    var vs := MinimaxValues(g, p, engineWhite, depth - 1, fuel);
    forall k | 0 <= k < |vs|
      ensures -(bound + depth - 1) <= vs[k] <= bound + depth - 1
    {
      MinimaxBound(g, RootChild(g, p, engineWhite, k), depth - 1, !engineWhite, fuel, bound);
    }
    InsideSentinels(engineWhite, vs, bound + depth - 1);
  }

  // ------------------------------------------------------------ alpha-beta root

  /** The loop of `findBestMoveAlphaBeta` from the k-th root move: each move
      is searched with the window narrowed by the best score so far (alpha
      raised for white, beta lowered for black), and a strictly better
      score makes it the pick. */
  function AlphaBetaRootLoop<P, M>(g: Game<P, M>, p: P, engineWhite: bool, depth: nat, fuel: nat,
                                   k: nat, alpha: int, beta: int, best: Option<nat>): Option<nat>
    requires k <= |g.legal(p, engineWhite)|
    decreases |g.legal(p, engineWhite)| - k
  {
    if k == |g.legal(p, engineWhite)| then best
    else
      var v := AlphaBeta(g, RootChild(g, p, engineWhite, k), depth, !engineWhite, alpha, beta, fuel);
      if engineWhite then
        if v > alpha then AlphaBetaRootLoop(g, p, engineWhite, depth, fuel, k + 1, v, beta, Some(k))
        else AlphaBetaRootLoop(g, p, engineWhite, depth, fuel, k + 1, alpha, beta, best)
      else
        if v < beta then AlphaBetaRootLoop(g, p, engineWhite, depth, fuel, k + 1, alpha, v, Some(k))
        else AlphaBetaRootLoop(g, p, engineWhite, depth, fuel, k + 1, alpha, beta, best)
  }

  /** `findBestMoveAlphaBeta` of `SearchEngine` and `AlphaBeta`. */
  function AlphaBetaRoot<P, M>(g: Game<P, M>, p: P, engineWhite: bool, depth: nat, fuel: nat): Option<M>
    requires depth > 0
  {
    var ms := g.legal(p, engineWhite);
    if |ms| == 0 then None
    else
      var best := AlphaBetaRootLoop(g, p, engineWhite, depth - 1, fuel, 0, MinValue, MaxValue, None);
      if best.Some? && best.value < |ms| then Some(ms[best.value]) else None
  }

  /** A score tested against a window with one side at a sentinel: the
      alpha-beta value passes the test exactly when the minimax value does,
      and is that value when it passes. */
  lemma RaisedWindow(v: int, mm: int, alpha: int)
    requires alpha < MaxValue && mm < MaxValue
    requires Clamp(v, alpha, MaxValue) == Clamp(mm, alpha, MaxValue)
    ensures v > alpha <==> mm > alpha
    ensures v > alpha ==> v == mm
  {
  }

  lemma LoweredWindow(v: int, mm: int, beta: int)
    requires MinValue < beta && MinValue < mm
    requires Clamp(v, MinValue, beta) == Clamp(mm, MinValue, beta)
    ensures v < beta <==> mm < beta
    ensures v < beta ==> v == mm
  {
  }

  /** The narrowing loop keeps, as its bound and pick, the minimax root's
      choice over the moves searched so far. */
  lemma {:induction false} AlphaBetaRootLoopAgrees<P(!new), M>(g: Game<P, M>, p: P, engineWhite: bool, depth: nat, fuel: nat,
                                                               k: nat, alpha: int, beta: int, best: Option<nat>, bound: int)
    requires !g.mateCutoff && Bounded(g, bound) && bound + depth < MaxValue
    requires k <= |g.legal(p, engineWhite)|
    requires var c := Select(engineWhite, MinimaxValues(g, p, engineWhite, depth, fuel)[..k], Sentinel(engineWhite));
             && best == c.index
             && (engineWhite ==> alpha == c.value && beta == MaxValue)
             && (!engineWhite ==> alpha == MinValue && beta == c.value)
    requires forall j | 0 <= j < |g.legal(p, engineWhite)| ::
               -(bound + depth) <= MinimaxValues(g, p, engineWhite, depth, fuel)[j] <= bound + depth
    ensures AlphaBetaRootLoop(g, p, engineWhite, depth, fuel, k, alpha, beta, best)
            == Select(engineWhite, MinimaxValues(g, p, engineWhite, depth, fuel), Sentinel(engineWhite)).index
    decreases |g.legal(p, engineWhite)| - k
  {
    var vs := MinimaxValues(g, p, engineWhite, depth, fuel);
    var n := |g.legal(p, engineWhite)|;
    if k == n {
      assert vs[..k] == vs;
    } else {
      var c := Select(engineWhite, vs[..k], Sentinel(engineWhite));
      SelectFirstBest(engineWhite, vs[..k], Sentinel(engineWhite));
      var q := RootChild(g, p, engineWhite, k);
      var v := AlphaBeta(g, q, depth, !engineWhite, alpha, beta, fuel);
      assert alpha < beta;
      AlphaBetaClamp(g, q, depth, !engineWhite, alpha, beta, fuel);
      SelectPrefix(engineWhite, vs, k, Sentinel(engineWhite));
      if engineWhite {
        RaisedWindow(v, vs[k], alpha);
        if v > alpha {
          AlphaBetaRootLoopAgrees(g, p, engineWhite, depth, fuel, k + 1, v, beta, Some(k), bound);
        } else {
          AlphaBetaRootLoopAgrees(g, p, engineWhite, depth, fuel, k + 1, alpha, beta, best, bound);
        }
      } else {
        LoweredWindow(v, vs[k], beta);
        if v < beta {
          AlphaBetaRootLoopAgrees(g, p, engineWhite, depth, fuel, k + 1, alpha, v, Some(k), bound);
        } else {
          AlphaBetaRootLoopAgrees(g, p, engineWhite, depth, fuel, k + 1, alpha, beta, best, bound);
        }
      }
    }
  }

  /** Without the mate cutoff the narrowing root returns the same move as
      the minimax root. */
  lemma AlphaBetaRootIsMinimaxRoot<P(!new), M>(g: Game<P, M>, p: P, engineWhite: bool, depth: nat, fuel: nat, bound: int)
    requires depth > 0 && !g.mateCutoff && Bounded(g, bound) && bound + depth < MaxValue
    ensures AlphaBetaRoot(g, p, engineWhite, depth, fuel) == MinimaxRoot(g, p, engineWhite, depth, fuel)
  {
    var vs := MinimaxValues(g, p, engineWhite, depth - 1, fuel);
    forall j | 0 <= j < |vs|
      ensures -(bound + depth - 1) <= vs[j] <= bound + depth - 1
    {
      MinimaxBound(g, RootChild(g, p, engineWhite, j), depth - 1, !engineWhite, fuel, bound);
    }
    assert vs[..0] == [];
    AlphaBetaRootLoopAgrees(g, p, engineWhite, depth - 1, fuel, 0, MinValue, MaxValue, None, bound);
  }

  // ------------------------------------------------------------ two plies

  /** The position after the opponent's j-th reply at `q`. */
  function Answered<P, M>(g: Game<P, M>, q: P, engineWhite: bool, j: nat): P
    requires j < |g.legal(q, !engineWhite)|
  {
    g.play(q, g.legal(q, !engineWhite)[j])
  }

  /** The engine's worst case after a root move: the opponent's best
      evaluation over its first k replies, from the opponent's sentinel
      (`MAX_VALUE` against a white engine, `MIN_VALUE` against black). */
  function WorstCase<P, M>(g: Game<P, M>, q: P, engineWhite: bool, k: nat): int
    requires k <= |g.legal(q, !engineWhite)|
  {
    if k == 0 then Sentinel(!engineWhite)
    else
      var v := g.evaluate(Answered(g, q, engineWhite, k - 1));
      if engineWhite then Min(WorstCase(g, q, engineWhite, k - 1), v) else Max(WorstCase(g, q, engineWhite, k - 1), v)
  }

  /** With replies the worst case is the evaluation of one of them, and no
      reply evaluates better for the opponent; without, it is the
      opponent's sentinel. */
  lemma {:induction false} WorstCaseIsReply<P, M>(g: Game<P, M>, q: P, engineWhite: bool, k: nat)
    requires k <= |g.legal(q, !engineWhite)|
    requires forall j | 0 <= j < k :: MinValue <= g.evaluate(Answered(g, q, engineWhite, j)) <= MaxValue
    ensures var w := WorstCase(g, q, engineWhite, k);
            && (k == 0 ==> w == Sentinel(!engineWhite))
            && (k > 0 ==> exists j | 0 <= j < k :: w == g.evaluate(Answered(g, q, engineWhite, j)))
            && (forall j | 0 <= j < k :: !Better(!engineWhite, g.evaluate(Answered(g, q, engineWhite, j)), w))
  {
    if k > 0 {
      WorstCaseIsReply(g, q, engineWhite, k - 1);
      if k == 1 {
        assert WorstCase(g, q, engineWhite, 1) == g.evaluate(Answered(g, q, engineWhite, 0));
      }
    }
  }

  /** The worst case of every root move. */
  function WorstCases<P, M>(g: Game<P, M>, p: P, engineWhite: bool): (ws: seq<int>)
    ensures |ws| == |g.legal(p, engineWhite)|
    ensures forall k | 0 <= k < |ws| ::
              ws[k] == WorstCase(g, RootChild(g, p, engineWhite, k), engineWhite,
                                 |g.legal(RootChild(g, p, engineWhite, k), !engineWhite)|)
  {
    var n := |g.legal(p, engineWhite)|;
    seq(n, k requires 0 <= k < n =>
      WorstCase(g, RootChild(g, p, engineWhite, k), engineWhite, |g.legal(RootChild(g, p, engineWhite, k), !engineWhite)|))
  }

  /** `findBestMoveDepth2`: the first root move whose worst case is
      strictly the best for the engine.  `findBestBlackMoveDepth2` is this
      with `engineWhite` false: the same loops with the black constants. */
  function Depth2<P, M>(g: Game<P, M>, p: P, engineWhite: bool): Option<M>
  {
    var ms := g.legal(p, engineWhite);
    if |ms| == 0 then None
    else Picked(ms, Select(engineWhite, WorstCases(g, p, engineWhite), Sentinel(engineWhite)))
  }

  /** Evaluations off the sentinels: `null` exactly without a legal move;
      otherwise the first root move with the best worst case, where a root
      move the opponent cannot answer keeps the opponent's sentinel and so
      looks best of all to the engine. */
  lemma Depth2FirstBest<P(!new), M>(g: Game<P, M>, p: P, engineWhite: bool, bound: int)
    requires Bounded(g, bound) && bound < MaxValue
    ensures var r, ms, ws := Depth2(g, p, engineWhite), g.legal(p, engineWhite), WorstCases(g, p, engineWhite);
            && (r.None? <==> |ms| == 0)
            && (r.Some? ==> exists k | 0 <= k < |ms| ::
                  && r.value == ms[k]
                  && (forall j | 0 <= j < |ms| :: !Better(engineWhite, ws[j], ws[k]))
                  && (forall j | 0 <= j < k :: Better(engineWhite, ws[k], ws[j])))
    ensures forall k | 0 <= k < |g.legal(p, engineWhite)| && |g.legal(RootChild(g, p, engineWhite, k), !engineWhite)| == 0 ::
              WorstCases(g, p, engineWhite)[k] == Sentinel(!engineWhite)
  {
    var ms := g.legal(p, engineWhite);
    var ws := WorstCases(g, p, engineWhite);
    SelectFirstBest(engineWhite, ws, Sentinel(engineWhite));
    forall k | 0 <= k < |ms|
      ensures Better(engineWhite, ws[k], Sentinel(engineWhite))
      ensures |g.legal(RootChild(g, p, engineWhite, k), !engineWhite)| == 0 ==> ws[k] == Sentinel(!engineWhite)
    {
      var q := RootChild(g, p, engineWhite, k);
      forall j | 0 <= j < |g.legal(q, !engineWhite)|
        ensures -bound <= g.evaluate(Answered(g, q, engineWhite, j)) <= bound
      {
      }
      WorstCaseIsReply(g, q, engineWhite, |g.legal(q, !engineWhite)|);
    }
  }

  // ------------------------------------------------------------ five plies for black

  /** The value `findBestBlackMoveDepth5` gives the position `q` after a
      move, `plies` more replies to follow: a position that is over scores
      terminally, the last ply's positions are evaluated, and any other is
      the largest value over its continuations. */
  function Continuation<P, M>(g: Game<P, M>, q: P, white: bool, plies: nat): int
    decreases plies, 2
  {
    if g.over(q) then g.terminal(q, 0)
    else if plies == 0 then g.evaluate(q)
    else Depth5Worst(g, q, white, plies)
  }

  /** The largest value over the continuations of `q`, `white` to move,
      starting from `MIN_VALUE`: a side without a move scores terminally.
      The maximum is taken at every ply, black's moves included. */
  function Depth5Worst<P, M>(g: Game<P, M>, q: P, white: bool, plies: nat): int
    requires plies > 0
    decreases plies, 1
  {
    var rs := g.legal(q, white);
    if |rs| == 0 then Max(MinValue, g.terminal(q, 0))
    else Depth5Over(g, q, white, plies, |rs|)
  }

  /** The maximum over the first k replies. */
  function Depth5Over<P, M>(g: Game<P, M>, q: P, white: bool, plies: nat, k: nat): int
    requires plies > 0 && k <= |g.legal(q, white)|
    decreases plies, 0, k
  {
    if k == 0 then MinValue
    else Max(Depth5Over(g, q, white, plies, k - 1), Continuation(g, g.play(q, g.legal(q, white)[k - 1]), !white, plies - 1))
  }

  /** A root move's value: terminal when it ends the game, else the largest
      value over the four replies that follow. */
  function Depth5Value<P, M>(g: Game<P, M>, q: P): int
  {
    if g.over(q) then g.terminal(q, 0) else Depth5Worst(g, q, true, 4)
  }

  function Depth5Values<P, M>(g: Game<P, M>, p: P): (vs: seq<int>)
    ensures |vs| == |g.legal(p, false)|
    ensures forall k | 0 <= k < |vs| :: vs[k] == Depth5Value(g, RootChild(g, p, false, k))
  {
    var n := |g.legal(p, false)|;
    seq(n, k requires 0 <= k < n => Depth5Value(g, RootChild(g, p, false, k)))
  }

  /** `findBestBlackMoveDepth5`: black's first root move with the smallest
      value. */
  function BlackDepth5<P, M>(g: Game<P, M>, p: P): Option<M>
  {
    var ms := g.legal(p, false);
    if |ms| == 0 then None
    else Picked(ms, Select(false, Depth5Values(g, p), MaxValue))
  }

  /** At every ply, whichever side is to move, the value is at least that
      of each continuation and equal to one of them: black's own replies
      are maximised as white's are. */
  lemma {:induction false} Depth5Maximises<P, M>(g: Game<P, M>, q: P, white: bool, plies: nat, k: nat)
    requires plies > 0 && k <= |g.legal(q, white)|
    ensures var v, rs := Depth5Over(g, q, white, plies, k), g.legal(q, white);
            && (forall j | 0 <= j < k :: Continuation(g, g.play(q, rs[j]), !white, plies - 1) <= v)
            && (k > 0 ==> exists j | 0 <= j < k :: v == Max(MinValue, Continuation(g, g.play(q, rs[j]), !white, plies - 1)))
            && (k == 0 ==> v == MinValue)
    decreases k
  {
    if k > 0 {
      Depth5Maximises(g, q, white, plies, k - 1);
      var rs := g.legal(q, white);
      if k == 1 {
        assert Depth5Over(g, q, white, plies, 1) == Max(MinValue, Continuation(g, g.play(q, rs[0]), !white, plies - 1));
      }
    }
  }

  /** Values off the sentinels: `null` exactly without a legal black move,
      otherwise black's first root move of smallest value. */
  lemma BlackDepth5FirstBest<P, M>(g: Game<P, M>, p: P)
    requires forall k | 0 <= k < |g.legal(p, false)| :: Depth5Values(g, p)[k] < MaxValue
    ensures var r, ms, vs := BlackDepth5(g, p), g.legal(p, false), Depth5Values(g, p);
            && (r.None? <==> |ms| == 0)
            && (r.Some? ==> exists k | 0 <= k < |ms| ::
                  && r.value == ms[k]
                  && (forall j | 0 <= j < |ms| :: vs[k] <= vs[j])
                  && (forall j | 0 <= j < k :: vs[k] < vs[j]))
  {
    var vs := Depth5Values(g, p);
    SelectFirstBest(false, vs, MaxValue);
    if |vs| > 0 {
      assert Better(false, vs[0], MaxValue);
    }
  }
}
