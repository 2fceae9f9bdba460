/** What the searches compute.  Alpha-beta agrees with minimax inside its
    window: clamped to the window (narrowed to the mate scores when a mate
    score stops a node) the two values are equal, so with a full window and
    no mate cutoff alpha-beta returns the minimax value itself.  The
    fail-hard quiescence search returns its reference value clamped to the
    window. */
module SearchFacts {
  import opened Evaluation
  import opened Search

  /** A value forced into [lo, hi] (hi wins when the interval is empty). */
  function Clamp(x: int, lo: int, hi: int): int
  {
    Min(Max(x, lo), hi)
  }

  /** The window a node's value is exact in: with the mate cutoff, values
      beyond the mate scores are only bounds. */
  function Lo<P, M>(g: Game<P, M>, alpha: int): int
  {
    if g.mateCutoff then Max(alpha, -MateScore) else alpha
  }

  function Hi<P, M>(g: Game<P, M>, beta: int): int
  {
    if g.mateCutoff then Min(beta, MateScore) else beta
  }

  // ------------------------------------------------------------ clamp arithmetic

  /** Values equal when clamped to a window are equal when clamped to any
      window inside it. */
  lemma ClampNarrow(x: int, y: int, a: int, b: int, lo: int, hi: int)
    requires a <= lo && hi <= b && Clamp(x, a, b) == Clamp(y, a, b)
    ensures Clamp(x, lo, hi) == Clamp(y, lo, hi)
  {
  }

  // ------------------------------------------------------------ monotone folds

  lemma {:induction false} BestMonotone<P, M>(g: Game<P, M>, p: P, depth: nat, maxing: bool, fuel: nat, i: nat, j: nat)
    requires depth > 0 && i <= j <= |g.moves(p, maxing)|
    ensures maxing ==> Best(g, p, depth, maxing, fuel, i) <= Best(g, p, depth, maxing, fuel, j)
    ensures !maxing ==> Best(g, p, depth, maxing, fuel, i) >= Best(g, p, depth, maxing, fuel, j)
    decreases j
  {
    if i < j {
      BestMonotone(g, p, depth, maxing, fuel, i, j - 1);
      BestStep(g, p, depth, maxing, fuel, j - 1);
      var a, b, c := Best(g, p, depth, maxing, fuel, i), Best(g, p, depth, maxing, fuel, j - 1), Best(g, p, depth, maxing, fuel, j);
      assert maxing ==> a <= b <= c;
      assert !maxing ==> a >= b >= c;
    }
  }

  /** A value at or above the top of the window, clamped as the running
      best, clamps as every later best. */
  lemma ClampTop(v: int, best: int, later: int, lo: int, hi: int)
    requires v >= hi && Clamp(v, lo, hi) == Clamp(best, lo, hi) && best <= later
    ensures Clamp(v, lo, hi) == Clamp(later, lo, hi)
  {
  }

  lemma ClampBottom(v: int, best: int, later: int, lo: int, hi: int)
    requires v <= lo && Clamp(v, lo, hi) == Clamp(best, lo, hi) && best >= later
    ensures Clamp(v, lo, hi) == Clamp(later, lo, hi)
  {
  }

  /** One more child: the best so far combined with its minimax value. */
  lemma BestNext<P, M>(g: Game<P, M>, p: P, depth: nat, maxing: bool, fuel: nat, k: nat)
    requires depth > 0 && k < |g.moves(p, maxing)|
    ensures var m := Minimax(g, Child(g, p, maxing, k), depth - 1, !maxing, fuel);
            Best(g, p, depth, maxing, fuel, k + 1)
            == if maxing then Max(Best(g, p, depth, maxing, fuel, k), m) else Min(Best(g, p, depth, maxing, fuel, k), m)
  {
  }

  lemma BestStep<P, M>(g: Game<P, M>, p: P, depth: nat, maxing: bool, fuel: nat, k: nat)
    requires depth > 0 && k < |g.moves(p, maxing)|
    ensures maxing ==> Best(g, p, depth, maxing, fuel, k) <= Best(g, p, depth, maxing, fuel, k + 1)
    ensures !maxing ==> Best(g, p, depth, maxing, fuel, k) >= Best(g, p, depth, maxing, fuel, k + 1)
  {
  }

  lemma {:induction false} QRefOverMonotone<P, M>(g: Game<P, M>, p: P, maxing: bool, fuel: nat, i: nat, j: nat)
    requires fuel > 0 && i <= j <= |g.tactics(p, maxing)|
    ensures maxing ==> QRefOver(g, p, maxing, fuel, i) <= QRefOver(g, p, maxing, fuel, j)
    ensures !maxing ==> QRefOver(g, p, maxing, fuel, i) >= QRefOver(g, p, maxing, fuel, j)
    decreases j
  {
    if i < j {
      QRefOverMonotone(g, p, maxing, fuel, i, j - 1);
    }
  }

  // ------------------------------------------------------------ quiescence

  /** Fail-hard quiescence: on a position that is not over, the result lies
      in the window, and in every case it is the reference value clamped to
      the window. */
  lemma {:induction false} QuiescenceClamp<P, M>(g: Game<P, M>, p: P, alpha: int, beta: int, maxing: bool, fuel: nat)
    requires alpha < beta
    ensures Clamp(Quiescence(g, p, alpha, beta, maxing, fuel), alpha, beta) == Clamp(QRef(g, p, maxing, fuel), alpha, beta)
    ensures !g.over(p) ==> Quiescence(g, p, alpha, beta, maxing, fuel) == Clamp(QRef(g, p, maxing, fuel), alpha, beta)
    decreases fuel, 1, 0
  {
    if !g.over(p) {
      var standPat := g.evaluate(p);
      if fuel > 0 {
        var n := |g.tactics(p, maxing)|;
        QRefOverMonotone(g, p, maxing, fuel, 0, n);
        if maxing && standPat < beta {
          QLoopClamp(g, p, maxing, fuel, alpha, beta, 0, Max(alpha, standPat), beta);
        } else if !maxing && standPat > alpha {
          QLoopClamp(g, p, maxing, fuel, alpha, beta, 0, alpha, Min(beta, standPat));
        }
      }
    }
  }

  lemma {:induction false} QLoopClamp<P, M>(g: Game<P, M>, p: P, maxing: bool, fuel: nat, alpha0: int, beta0: int, k: nat, alpha: int, beta: int)
    requires fuel > 0 && k <= |g.tactics(p, maxing)| && alpha0 < beta0 && alpha < beta
    requires maxing ==> alpha == Max(alpha0, QRefOver(g, p, maxing, fuel, k)) && beta == beta0
    requires !maxing ==> beta == Min(beta0, QRefOver(g, p, maxing, fuel, k)) && alpha == alpha0
    ensures QLoop(g, p, maxing, fuel, k, alpha, beta)
            == Clamp(QRefOver(g, p, maxing, fuel, |g.tactics(p, maxing)|), alpha0, beta0)
    decreases fuel, 0, |g.tactics(p, maxing)| - k
  {
    var n := |g.tactics(p, maxing)|;
    if k < n {
      var q := Tactic(g, p, maxing, k);
      var score := Quiescence(g, q, alpha, beta, !maxing, fuel - 1);
      QuiescenceClamp(g, q, alpha, beta, !maxing, fuel - 1);
      QRefOverMonotone(g, p, maxing, fuel, k + 1, n);
      if maxing && Max(alpha, score) < beta {
        QLoopClamp(g, p, maxing, fuel, alpha0, beta0, k + 1, Max(alpha, score), beta);
      } else if !maxing && Min(beta, score) > alpha {
        QLoopClamp(g, p, maxing, fuel, alpha0, beta0, k + 1, alpha, Min(beta, score));
      }
    }
  }

  // ------------------------------------------------------------ alpha-beta

  /** One child of a maximising loop: with the running value clamping as
      the best so far, and the child searched with the window raised to the
      running value, the new value clamps as the best of one more child. */
  lemma ClampMaxStep(value: int, best: int, c: int, m: int, lo: int, hi: int, clo: int)
    requires Clamp(value, lo, hi) == Clamp(best, lo, hi) && value < hi
    requires clo == Max(lo, value) && Clamp(c, clo, hi) == Clamp(m, clo, hi)
    ensures Clamp(Max(value, c), lo, hi) == Clamp(Max(best, m), lo, hi)
  {
  }

  lemma ClampMinStep(value: int, best: int, c: int, m: int, lo: int, hi: int, chi: int)
    requires Clamp(value, lo, hi) == Clamp(best, lo, hi) && value > lo
    requires chi == Min(hi, value) && Clamp(c, lo, chi) == Clamp(m, lo, chi)
    ensures Clamp(Min(value, c), lo, hi) == Clamp(Min(best, m), lo, hi)
  {
  }

  /** Alpha-beta against minimax: inside the window (narrowed to the mate
      scores when a mate score stops a node) the two agree. */
  lemma {:induction false} AlphaBetaClamp<P, M>(g: Game<P, M>, p: P, depth: nat, maxing: bool, alpha: int, beta: int, fuel: nat)
    requires MinValue <= alpha < beta <= MaxValue
    ensures Clamp(AlphaBeta(g, p, depth, maxing, alpha, beta, fuel), Lo(g, alpha), Hi(g, beta))
            == Clamp(Minimax(g, p, depth, maxing, fuel), Lo(g, alpha), Hi(g, beta))
    decreases depth, 1, 0
  {
    if depth == 0 || g.over(p) {
      if !g.over(p) && g.quiescent {
        QuiescenceClamp(g, p, alpha, beta, maxing, fuel);
        ClampNarrow(Quiescence(g, p, alpha, beta, maxing, fuel), QRef(g, p, maxing, fuel),
                    alpha, beta, Lo(g, alpha), Hi(g, beta));
      }
    } else if |g.moves(p, maxing)| > 0 {
      if maxing {
        ABLoopClampMax(g, p, depth, fuel, alpha, beta, 0, MinValue);
      } else {
        ABLoopClampMin(g, p, depth, fuel, alpha, beta, 0, MaxValue);
      }
    }
  }

  /** The maximising loop from the k-th child, with the running value
      clamping as the best minimax value so far and the window raised to
      it, ends at a value clamping as the node's minimax value. */
  lemma {:induction false} ABLoopClampMax<P, M>(g: Game<P, M>, p: P, depth: nat, fuel: nat,
                                                alpha0: int, beta0: int, k: nat, value: int)
    requires depth > 0 && k <= |g.moves(p, true)|
    requires MinValue <= alpha0 < beta0 <= MaxValue && value < Hi(g, beta0)
    requires Clamp(value, Lo(g, alpha0), Hi(g, beta0))
             == Clamp(Best(g, p, depth, true, fuel, k), Lo(g, alpha0), Hi(g, beta0))
    ensures Clamp(ABLoop(g, p, depth, true, fuel, k, value, Max(alpha0, value), beta0), Lo(g, alpha0), Hi(g, beta0))
            == Clamp(Best(g, p, depth, true, fuel, |g.moves(p, true)|), Lo(g, alpha0), Hi(g, beta0))
    decreases depth, 0, |g.moves(p, true)| - k
  {
    var n := |g.moves(p, true)|;
    if k < n {
      var lo, hi, alpha := Lo(g, alpha0), Hi(g, beta0), Max(alpha0, value);
      var q := Child(g, p, true, k);
      AlphaBetaClamp(g, q, depth - 1, false, alpha, beta0, fuel);
      var c := AlphaBeta(g, q, depth - 1, false, alpha, beta0, fuel);
      var m := Minimax(g, q, depth - 1, false, fuel);
      BestNext(g, p, depth, true, fuel, k);
      BestMonotone(g, p, depth, true, fuel, k + 1, n);
      var best, best1, bestN := Best(g, p, depth, true, fuel, k), Best(g, p, depth, true, fuel, k + 1), Best(g, p, depth, true, fuel, n);
      ClampMaxStep(value, best, c, m, lo, hi, Lo(g, alpha));
      var v := Max(value, c);
      if Max(alpha, v) >= beta0 || (g.mateCutoff && v >= MateScore) {
        ClampTop(v, best1, bestN, lo, hi);
      } else {
        ABLoopClampMax(g, p, depth, fuel, alpha0, beta0, k + 1, v);
      }
    }
  }

  /** The minimising loop, symmetrically. */
  lemma {:induction false} ABLoopClampMin<P, M>(g: Game<P, M>, p: P, depth: nat, fuel: nat,
                                                alpha0: int, beta0: int, k: nat, value: int)
    requires depth > 0 && k <= |g.moves(p, false)|
    requires MinValue <= alpha0 < beta0 <= MaxValue && value > Lo(g, alpha0)
    requires Clamp(value, Lo(g, alpha0), Hi(g, beta0))
             == Clamp(Best(g, p, depth, false, fuel, k), Lo(g, alpha0), Hi(g, beta0))
    ensures Clamp(ABLoop(g, p, depth, false, fuel, k, value, alpha0, Min(beta0, value)), Lo(g, alpha0), Hi(g, beta0))
            == Clamp(Best(g, p, depth, false, fuel, |g.moves(p, false)|), Lo(g, alpha0), Hi(g, beta0))
    decreases depth, 0, |g.moves(p, false)| - k
  {
    var n := |g.moves(p, false)|;
    if k < n {
      var lo, hi, beta := Lo(g, alpha0), Hi(g, beta0), Min(beta0, value);
      var q := Child(g, p, false, k);
      AlphaBetaClamp(g, q, depth - 1, true, alpha0, beta, fuel);
      var c := AlphaBeta(g, q, depth - 1, true, alpha0, beta, fuel);
      var m := Minimax(g, q, depth - 1, true, fuel);
      BestNext(g, p, depth, false, fuel, k);
      BestMonotone(g, p, depth, false, fuel, k + 1, n);
      var best, best1, bestN := Best(g, p, depth, false, fuel, k), Best(g, p, depth, false, fuel, k + 1), Best(g, p, depth, false, fuel, n);
      ClampMinStep(value, best, c, m, lo, hi, Hi(g, beta));
      var v := Min(value, c);
      if Min(beta, v) <= alpha0 || (g.mateCutoff && v <= -MateScore) {
        ClampBottom(v, best1, bestN, lo, hi);
      } else {
        ABLoopClampMin(g, p, depth, fuel, alpha0, beta0, k + 1, v);
      }
    }
  }

  // ------------------------------------------------------------ full window

  /** Terminal scores within `bound` plus the remaining depth, evaluations
      within `bound`: what keeps every value off the int sentinels. */
  ghost predicate Bounded<P(!new), M>(g: Game<P, M>, bound: int)
  {
    && (forall p, d: nat :: -(bound + d) <= g.terminal(p, d) <= bound + d)
    && (forall p :: -bound <= g.evaluate(p) <= bound)
  }

  lemma {:induction false} QRefBound<P(!new), M>(g: Game<P, M>, p: P, maxing: bool, fuel: nat, bound: int)
    requires Bounded(g, bound)
    ensures -bound <= QRef(g, p, maxing, fuel) <= bound
    decreases fuel, 1, 0
  {
    if !g.over(p) && fuel > 0 {
      QRefOverBound(g, p, maxing, fuel, |g.tactics(p, maxing)|, bound);
    }
  }

  lemma {:induction false} QRefOverBound<P(!new), M>(g: Game<P, M>, p: P, maxing: bool, fuel: nat, k: nat, bound: int)
    requires Bounded(g, bound) && fuel > 0 && k <= |g.tactics(p, maxing)|
    ensures -bound <= QRefOver(g, p, maxing, fuel, k) <= bound
    decreases fuel, 0, k
  {
    if k > 0 {
      QRefOverBound(g, p, maxing, fuel, k - 1, bound);
      QRefBound(g, Tactic(g, p, maxing, k - 1), !maxing, fuel - 1, bound);
    }
  }

  /** Minimax values stay within the bound plus the depth: a node with
      children takes one of their values, never its sentinel. */
  lemma {:induction false} MinimaxBound<P(!new), M>(g: Game<P, M>, p: P, depth: nat, maxing: bool, fuel: nat, bound: int)
    requires Bounded(g, bound) && bound + depth < MaxValue
    ensures -(bound + depth) <= Minimax(g, p, depth, maxing, fuel) <= bound + depth
    decreases depth, 1, 0
  {
    if depth == 0 || g.over(p) {
      if !g.over(p) && g.quiescent {
        QRefBound(g, p, maxing, fuel, bound);
      }
    } else if |g.moves(p, maxing)| > 0 {
      BestBound(g, p, depth, maxing, fuel, |g.moves(p, maxing)|, bound);
    }
  }

  lemma {:induction false} BestBound<P(!new), M>(g: Game<P, M>, p: P, depth: nat, maxing: bool, fuel: nat, k: nat, bound: int)
    requires Bounded(g, bound) && bound + depth < MaxValue
    requires depth > 0 && 0 < k <= |g.moves(p, maxing)|
    ensures -(bound + depth) <= Best(g, p, depth, maxing, fuel, k) <= bound + depth
    decreases depth, 0, k
  {
    MinimaxBound(g, Child(g, p, maxing, k - 1), depth - 1, !maxing, fuel, bound);
    if k > 1 {
      BestBound(g, p, depth, maxing, fuel, k - 1, bound);
    }
  }

  /** `alphabeta` with the window (MIN_VALUE, MAX_VALUE) and no mate cutoff
      returns exactly the minimax value. */
  lemma FullWindowEqualsMinimax<P(!new), M>(g: Game<P, M>, p: P, depth: nat, maxing: bool, fuel: nat, bound: int)
    requires !g.mateCutoff && Bounded(g, bound) && bound + depth < MaxValue
    ensures AlphaBeta(g, p, depth, maxing, MinValue, MaxValue, fuel) == Minimax(g, p, depth, maxing, fuel)
  {
    AlphaBetaClamp(g, p, depth, maxing, MinValue, MaxValue, fuel);
    MinimaxBound(g, p, depth, maxing, fuel, bound);
  }

  /** With the mate cutoff and the full window, alpha-beta returns the
      minimax value whenever that is not a mate score, and a mate score for
      a side exactly when minimax does. */
  lemma MateCutoffAgreesWithMinimax<P, M>(g: Game<P, M>, p: P, depth: nat, maxing: bool, fuel: nat)
    requires g.mateCutoff
    ensures var ab, mm := AlphaBeta(g, p, depth, maxing, MinValue, MaxValue, fuel), Minimax(g, p, depth, maxing, fuel);
            && (-MateScore < mm < MateScore ==> ab == mm)
            && (ab >= MateScore <==> mm >= MateScore)
            && (ab <= -MateScore <==> mm <= -MateScore)
  {
    AlphaBetaClamp(g, p, depth, maxing, MinValue, MaxValue, fuel);
  }
}
