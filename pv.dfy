/** `alphabetaTimedWithPV` of `ai.AlphaBetaC2` and `ai.BetterSquares`: the
    alpha-beta search that also returns its principal variation, the line
    of moves it expects.  Its score is the plain alpha-beta value, and the
    line is a sequence of moves each side can play, one per ply searched. */
module PrincipalVariation {
  import opened Evaluation
  import opened Search
  import opened Selection

  /** `SearchResult`: a score and the line of moves behind it. */
  datatype SearchResult<M> = SearchResult(score: int, pv: seq<M>)

  /** A line of moves from `p`, the side to play alternating from `maxing`:
      each move is one the search tries at that node. */
  predicate Line<P, M(==)>(g: Game<P, M>, p: P, maxing: bool, line: seq<M>)
    decreases |line|
  {
    |line| == 0 || (line[0] in g.moves(p, maxing) && Line(g, g.play(p, line[0]), !maxing, line[1..]))
  }

  /** The search: a leaf scores as in `alphabeta` with an empty line; a
      node whose side has no move scores terminally; otherwise the loop. */
  function AlphaBetaPV<P, M>(g: Game<P, M>, p: P, depth: nat, maxing: bool, alpha: int, beta: int, fuel: nat): SearchResult<M>
    decreases depth, 1, 0
  {
    if depth == 0 || g.over(p) then SearchResult(LeafValue(g, p, depth, maxing, alpha, beta, fuel), [])
    else if |g.moves(p, maxing)| == 0 then SearchResult(g.terminal(p, depth), [])
    else PVLoop(g, p, depth, maxing, fuel, 0, SearchResult(Sentinel(maxing), []), alpha, beta)
  }

  /** The loop from the k-th move: a child strictly better than the best so
      far replaces it, its line prefixed by the move; the window narrows by
      the best score, and the loop stops once the window closes or, with
      the mate cutoff, the best score is a mate score for the side. */
  function PVLoop<P, M>(g: Game<P, M>, p: P, depth: nat, maxing: bool, fuel: nat, k: nat,
                        best: SearchResult<M>, alpha: int, beta: int): SearchResult<M>
    requires depth > 0 && k <= |g.moves(p, maxing)|
    decreases depth, 0, |g.moves(p, maxing)| - k
  {
    if k == |g.moves(p, maxing)| then best
    else
      var m := g.moves(p, maxing)[k];
      var child := AlphaBetaPV(g, g.play(p, m), depth - 1, !maxing, alpha, beta, fuel);
      var best' := if Better(maxing, child.score, best.score) then SearchResult(child.score, [m] + child.pv) else best;
      if maxing then
        if Max(alpha, best'.score) >= beta || (g.mateCutoff && best'.score >= MateScore) then best'
        else PVLoop(g, p, depth, maxing, fuel, k + 1, best', Max(alpha, best'.score), beta)
      else
        if Min(beta, best'.score) <= alpha || (g.mateCutoff && best'.score <= -MateScore) then best'
        else PVLoop(g, p, depth, maxing, fuel, k + 1, best', alpha, Min(beta, best'.score))
  }

  /** Carrying the line changes nothing in the score: it is the alpha-beta
      value with the same window. */
  lemma {:induction false} PVScore<P, M>(g: Game<P, M>, p: P, depth: nat, maxing: bool, alpha: int, beta: int, fuel: nat)
    ensures AlphaBetaPV(g, p, depth, maxing, alpha, beta, fuel).score == AlphaBeta(g, p, depth, maxing, alpha, beta, fuel)
    decreases depth, 1, 0
  {
    if depth > 0 && !g.over(p) && |g.moves(p, maxing)| > 0 {
      PVLoopScore(g, p, depth, maxing, fuel, 0, SearchResult(Sentinel(maxing), []), alpha, beta);
    }
  }

  lemma {:induction false} PVLoopScore<P, M>(g: Game<P, M>, p: P, depth: nat, maxing: bool, fuel: nat, k: nat,
                                             best: SearchResult<M>, alpha: int, beta: int)
    requires depth > 0 && k <= |g.moves(p, maxing)|
    ensures PVLoop(g, p, depth, maxing, fuel, k, best, alpha, beta).score
            == ABLoop(g, p, depth, maxing, fuel, k, best.score, alpha, beta)
    decreases depth, 0, |g.moves(p, maxing)| - k
  {
    if k < |g.moves(p, maxing)| {
      var m := g.moves(p, maxing)[k];
      var child := AlphaBetaPV(g, g.play(p, m), depth - 1, !maxing, alpha, beta, fuel);
      PVScore(g, g.play(p, m), depth - 1, !maxing, alpha, beta, fuel);
      assert child.score == AlphaBeta(g, Child(g, p, maxing, k), depth - 1, !maxing, alpha, beta, fuel);
      var best' := if Better(maxing, child.score, best.score) then SearchResult(child.score, [m] + child.pv) else best;
      if maxing {
        if Max(alpha, best'.score) < beta && !(g.mateCutoff && best'.score >= MateScore) {
          PVLoopScore(g, p, depth, maxing, fuel, k + 1, best', Max(alpha, best'.score), beta);
        }
      } else {
        if Min(beta, best'.score) > alpha && !(g.mateCutoff && best'.score <= -MateScore) {
          PVLoopScore(g, p, depth, maxing, fuel, k + 1, best', alpha, Min(beta, best'.score));
        }
      }
    }
  }

  /** The k-th move tried at an interior node, searched with the window
      (a, b): the child's score, and the move in front of the child's line. */
  function Extend<P, M>(g: Game<P, M>, p: P, depth: nat, maxing: bool, fuel: nat, k: nat, a: int, b: int): SearchResult<M>
    requires depth > 0 && k < |g.moves(p, maxing)|
  {
    var c := AlphaBetaPV(g, Child(g, p, maxing, k), depth - 1, !maxing, a, b, fuel);
    SearchResult(c.score, [g.moves(p, maxing)[k]] + c.pv)
  }

  /** An interior node's result: the starting sentinel with an empty line,
      or some move's child result with that move in front of its line. */
  ghost predicate Backed<P, M>(g: Game<P, M>, p: P, depth: nat, maxing: bool, fuel: nat, r: SearchResult<M>)
    requires depth > 0
  {
    || r == SearchResult(Sentinel(maxing), [])
    || exists k, a, b | 0 <= k < |g.moves(p, maxing)| :: r == Extend(g, p, depth, maxing, fuel, k, a, b)
  }

  /** The principal variation is a line from the node, one move per ply at
      most: a leaf's is empty, an interior node's is its chosen move
      followed by that child's line, with that child's score. */
  lemma {:induction false} PVIsLine<P, M>(g: Game<P, M>, p: P, depth: nat, maxing: bool, alpha: int, beta: int, fuel: nat)
    ensures var r := AlphaBetaPV(g, p, depth, maxing, alpha, beta, fuel);
            Line(g, p, maxing, r.pv) && |r.pv| <= depth
    ensures depth == 0 || g.over(p) || |g.moves(p, maxing)| == 0 ==>
              AlphaBetaPV(g, p, depth, maxing, alpha, beta, fuel).pv == []
    ensures depth > 0 && !g.over(p) && |g.moves(p, maxing)| > 0 ==>
              Backed(g, p, depth, maxing, fuel, AlphaBetaPV(g, p, depth, maxing, alpha, beta, fuel))
    decreases depth, 1, 0
  {
    if depth > 0 && !g.over(p) && |g.moves(p, maxing)| > 0 {
      PVLoopLine(g, p, depth, maxing, fuel, 0, SearchResult(Sentinel(maxing), []), alpha, beta);
    }
  }

  lemma {:induction false} PVLoopLine<P, M>(g: Game<P, M>, p: P, depth: nat, maxing: bool, fuel: nat, k: nat,
                                            best: SearchResult<M>, alpha: int, beta: int)
    requires depth > 0 && k <= |g.moves(p, maxing)|
    requires Line(g, p, maxing, best.pv) && |best.pv| <= depth
    requires Backed(g, p, depth, maxing, fuel, best)
    ensures var r := PVLoop(g, p, depth, maxing, fuel, k, best, alpha, beta);
            Line(g, p, maxing, r.pv) && |r.pv| <= depth && Backed(g, p, depth, maxing, fuel, r)
    decreases depth, 0, |g.moves(p, maxing)| - k
  {
    if k < |g.moves(p, maxing)| {
      var m := g.moves(p, maxing)[k];
      var child := AlphaBetaPV(g, g.play(p, m), depth - 1, !maxing, alpha, beta, fuel);
      PVIsLine(g, g.play(p, m), depth - 1, !maxing, alpha, beta, fuel);
      var best' := if Better(maxing, child.score, best.score) then SearchResult(child.score, [m] + child.pv) else best;
      if Better(maxing, child.score, best.score) {
        assert ([m] + child.pv)[1..] == child.pv;
        assert best' == Extend(g, p, depth, maxing, fuel, k, alpha, beta);
      }
      assert Line(g, p, maxing, best'.pv) && |best'.pv| <= depth;
      assert Backed(g, p, depth, maxing, fuel, best');
      if maxing {
        if Max(alpha, best'.score) < beta && !(g.mateCutoff && best'.score >= MateScore) {
          PVLoopLine(g, p, depth, maxing, fuel, k + 1, best', Max(alpha, best'.score), beta);
        }
      } else {
        if Min(beta, best'.score) > alpha && !(g.mateCutoff && best'.score <= -MateScore) {
          PVLoopLine(g, p, depth, maxing, fuel, k + 1, best', alpha, Min(beta, best'.score));
        }
      }
    }
  }
}
