/** The node searches as the source runs them: recursive methods whose
    loops walk a node's moves updating the running value, the window or the
    best result, each proved to return what the function of the same name
    in `Search`, `PrincipalVariation` or `ForcedChecks` defines. */
module SearchMethods {
  import opened Evaluation
  import opened Search
  import opened Selection
  import opened PrincipalVariation
  import opened ForcedChecks

  /** `minimax`: the loop keeps the best child value so far. */
  method MinimaxSearch<P, M>(g: Game<P, M>, p: P, depth: nat, maxing: bool, fuel: nat) returns (v: int)
    ensures v == Minimax(g, p, depth, maxing, fuel)
    decreases depth
  {
    if depth == 0 || g.over(p) {
      return LeafRef(g, p, depth, maxing, fuel);
    }
    var moves := g.moves(p, maxing);
    if |moves| == 0 {
      return g.terminal(p, depth);
    }
    var best := Sentinel(maxing);
    var k := 0;
    while k < |moves|
      invariant 0 <= k <= |moves|
      invariant best == Best(g, p, depth, maxing, fuel, k)
      decreases |moves| - k
    {
      var value := MinimaxSearch(g, g.play(p, moves[k]), depth - 1, !maxing, fuel);
      best := if maxing then Max(best, value) else Min(best, value);
      k := k + 1;
    }
    return best;
  }

  /** `quiescence`: stand pat, then the tactical moves, the window narrowed
      by each score and a cutoff returning the bound. */
  method QuiescenceSearch<P, M>(g: Game<P, M>, p: P, alpha: int, beta: int, maxing: bool, fuel: nat) returns (v: int)
    ensures v == Quiescence(g, p, alpha, beta, maxing, fuel)
    decreases fuel
  {
    if g.over(p) {
      return g.terminal(p, 0);
    }
    var standPat := g.evaluate(p);
    var a, b := alpha, beta;
    if maxing {
      if standPat >= b {
        return b;
      }
      a := Max(a, standPat);
    } else {
      if standPat <= a {
        return a;
      }
      b := Min(b, standPat);
    }
    if fuel == 0 {
      return if maxing then a else b;
    }
    var tac := g.tactics(p, maxing);
    var k := 0;
    while k < |tac|
      invariant 0 <= k <= |tac|
      invariant QLoop(g, p, maxing, fuel, k, a, b) == Quiescence(g, p, alpha, beta, maxing, fuel)
      decreases |tac| - k
    {
      var sc := QuiescenceSearch(g, g.play(p, tac[k]), a, b, !maxing, fuel - 1);
      if maxing {
        a := Max(a, sc);
        if a >= b {
          return b;
        }
      } else {
        b := Min(b, sc);
        if b <= a {
          return a;
        }
      }
      k := k + 1;
    }
    return if maxing then a else b;
  }

  /** `alphabeta` / `alphabetaTimed`: the loop keeps the value and the
      window, and breaks on a cutoff (or a mate score, with the cutoff). */
  method AlphaBetaSearch<P, M>(g: Game<P, M>, p: P, depth: nat, maxing: bool, alpha: int, beta: int, fuel: nat) returns (v: int)
    ensures v == AlphaBeta(g, p, depth, maxing, alpha, beta, fuel)
    decreases depth
  {
    if depth == 0 || g.over(p) {
      if g.over(p) {
        return g.terminal(p, depth);
      }
      if !g.quiescent {
        return g.evaluate(p);
      }
      v := QuiescenceSearch(g, p, alpha, beta, maxing, fuel);
      return;
    }
    var moves := g.moves(p, maxing);
    if |moves| == 0 {
      return g.terminal(p, depth);
    }
    var value := Sentinel(maxing);
    var a, b := alpha, beta;
    var k := 0;
    while k < |moves|
      invariant 0 <= k <= |moves|
      invariant ABLoop(g, p, depth, maxing, fuel, k, value, a, b) == AlphaBeta(g, p, depth, maxing, alpha, beta, fuel)
      decreases |moves| - k
    {
      var child := AlphaBetaSearch(g, g.play(p, moves[k]), depth - 1, !maxing, a, b, fuel);
      if maxing {
        value := Max(value, child);
        a := Max(a, value);
        if a >= b || (g.mateCutoff && value >= MateScore) {
          return value;
        }
      } else {
        value := Min(value, child);
        b := Min(b, value);
        if b <= a || (g.mateCutoff && value <= -MateScore) {
          return value;
        }
      }
      k := k + 1;
    }
    return value;
  }

  /** `alphabetaTimedWithPV`: as `alphabeta`, the best result replaced by a
      strictly better child's score with the move put before its line. */
  method AlphaBetaPVSearch<P, M>(g: Game<P, M>, p: P, depth: nat, maxing: bool, alpha: int, beta: int, fuel: nat)
    returns (r: SearchResult<M>)
    ensures r == AlphaBetaPV(g, p, depth, maxing, alpha, beta, fuel)
    decreases depth
  {
    if depth == 0 || g.over(p) {
      var v;
      if g.over(p) {
        v := g.terminal(p, depth);
      } else if !g.quiescent {
        v := g.evaluate(p);
      } else {
        v := QuiescenceSearch(g, p, alpha, beta, maxing, fuel);
      }
      return SearchResult(v, []);
    }
    var moves := g.moves(p, maxing);
    if |moves| == 0 {
      return SearchResult(g.terminal(p, depth), []);
    }
    var best := SearchResult(Sentinel(maxing), []);
    var a, b := alpha, beta;
    var k := 0;
    while k < |moves|
      invariant 0 <= k <= |moves|
      invariant PVLoop(g, p, depth, maxing, fuel, k, best, a, b) == AlphaBetaPV(g, p, depth, maxing, alpha, beta, fuel)
      decreases |moves| - k
    {
      var m := moves[k];
      var child := AlphaBetaPVSearch(g, g.play(p, m), depth - 1, !maxing, a, b, fuel);
      if Better(maxing, child.score, best.score) {
        best := SearchResult(child.score, [m] + child.pv);
      }
      if maxing {
        a := Max(a, best.score);
        if a >= b || (g.mateCutoff && best.score >= MateScore) {
          return best;
        }
      } else {
        b := Min(b, best.score);
        if b <= a || (g.mateCutoff && best.score <= -MateScore) {
          return best;
        }
      }
      k := k + 1;
    }
    return best;
  }

  // ------------------------------------------------------------ forced checks

  /** One step of a loop keeping the strictly better result: it keeps the
      choice over one more entry. */
  lemma ChosenStep<M>(rs: seq<SearchResult<M>>, maxing: bool, k: nat, best: SearchResult<M>)
    requires k < |rs|
    requires var c := Select(maxing, Scores(rs)[..k], Sentinel(maxing));
             best == Chosen(rs, c) && best.score == c.value
    ensures var c := Select(maxing, Scores(rs)[..k + 1], Sentinel(maxing));
            var best' := if Better(maxing, rs[k].score, best.score) then rs[k] else best;
            best' == Chosen(rs, c) && best'.score == c.value
  {
    SelectPrefix(maxing, Scores(rs), k, Sentinel(maxing));
  }

  /** `forcedCheckSequenceWithPV`: a static leaf, the terminal score when
      the defender has no move, else the loop over the defences. */
  method CheckSearchMethod<P, M>(g: Game<P, M>, p: P, engineWhite: bool, attackerMaxes: bool, guarded: bool, rem: nat)
    returns (r: SearchResult<M>)
    ensures r == CheckSearch(g, p, engineWhite, attackerMaxes, guarded, rem)
    decreases rem, 4
  {
    if rem == 0 || !g.checked(p, !engineWhite) || g.over(p) {
      return SearchResult(if g.over(p) then g.terminal(p, 0) else g.evaluate(p), []);
    }
    if |g.legal(p, !engineWhite)| == 0 {
      return SearchResult(g.terminal(p, 0), []);
    }
    r := DefencesLoop(g, p, engineWhite, attackerMaxes, guarded, rem, Defences(g, p, engineWhite, attackerMaxes, guarded, rem));
  }

  /** The loop over the defences, their results known one by one: it keeps
      the result best for the defender so far. */
  method DefencesLoop<P, M>(g: Game<P, M>, p: P, engineWhite: bool, attackerMaxes: bool, guarded: bool, rem: nat,
                            ghost ds: seq<SearchResult<M>>)
    returns (worst: SearchResult<M>)
    requires rem > 0 && |ds| == |g.legal(p, !engineWhite)|
    requires forall k {:trigger Defence(g, p, engineWhite, attackerMaxes, guarded, rem, k)} | 0 <= k < |ds| ::
               ds[k] == Defence(g, p, engineWhite, attackerMaxes, guarded, rem, k)
    ensures var c := Select(!attackerMaxes, Scores(ds), Sentinel(!attackerMaxes));
            worst == Chosen(ds, c) && worst.score == c.value
    decreases rem, 3
  {
    var oppMoves := g.legal(p, !engineWhite);
    worst := SearchResult(Sentinel(!attackerMaxes), []);
    var k := 0;
    assert Scores(ds)[..0] == [];
    while k < |oppMoves|
      invariant 0 <= k <= |oppMoves|
      invariant var c := Select(!attackerMaxes, Scores(ds)[..k], Sentinel(!attackerMaxes));
                worst == Chosen(ds, c) && worst.score == c.value
      decreases |oppMoves| - k
    {
      var d := DefenceMethod(g, p, engineWhite, attackerMaxes, guarded, rem, k);
      ChosenStep(ds, !attackerMaxes, k, worst);
      if Better(!attackerMaxes, d.score, worst.score) {
        worst := d;
      }
      k := k + 1;
    }
    assert Scores(ds)[..k] == Scores(ds);
  }

  /** One defence: terminal when it ends the game (guarded), terminal when
      the engine has no reply, else the loop over the replies. */
  method DefenceMethod<P, M>(g: Game<P, M>, p: P, engineWhite: bool, attackerMaxes: bool, guarded: bool, rem: nat, k: nat)
    returns (d: SearchResult<M>)
    requires rem > 0 && k < |g.legal(p, !engineWhite)|
    ensures d == Defence(g, p, engineWhite, attackerMaxes, guarded, rem, k)
    decreases rem, 2
  {
    var opp := g.legal(p, !engineWhite)[k];
    var q := g.play(p, opp);
    if guarded && g.over(q) {
      return SearchResult(g.terminal(q, 0), [opp]);
    }
    if |g.legal(q, engineWhite)| == 0 {
      return SearchResult(g.terminal(q, 0), if guarded then [opp] else []);
    }
    var best := RepliesLoop(g, q, engineWhite, attackerMaxes, guarded, rem, Replies(g, q, engineWhite, attackerMaxes, guarded, rem));
    return if guarded then SearchResult(best.score, [opp] + best.pv) else best;
  }

  /** The loop over the engine's replies, their results known one by one:
      it keeps the result best for the engine so far. */
  method RepliesLoop<P, M>(g: Game<P, M>, q: P, engineWhite: bool, attackerMaxes: bool, guarded: bool, rem: nat,
                           ghost rs: seq<SearchResult<M>>)
    returns (best: SearchResult<M>)
    requires rem > 0 && |rs| == |g.legal(q, engineWhite)|
    requires forall j {:trigger Reply(g, q, engineWhite, attackerMaxes, guarded, rem, j)} | 0 <= j < |rs| ::
               rs[j] == Reply(g, q, engineWhite, attackerMaxes, guarded, rem, j)
    ensures var c := Select(attackerMaxes, Scores(rs), Sentinel(attackerMaxes));
            best == Chosen(rs, c) && best.score == c.value
    decreases rem, 1
  {
    var replies := g.legal(q, engineWhite);
    best := SearchResult(Sentinel(attackerMaxes), []);
    var j := 0;
    assert Scores(rs)[..0] == [];
    while j < |replies|
      invariant 0 <= j <= |replies|
      invariant var c := Select(attackerMaxes, Scores(rs)[..j], Sentinel(attackerMaxes));
                best == Chosen(rs, c) && best.score == c.value
      decreases |replies| - j
    {
      var sr := ReplyMethod(g, q, engineWhite, attackerMaxes, guarded, rem, j);
      ChosenStep(rs, attackerMaxes, j, best);
      if Better(attackerMaxes, sr.score, best.score) {
        best := sr;
      }
      j := j + 1;
    }
    assert Scores(rs)[..j] == Scores(rs);
  }

  /** One reply: terminal when it ends the game (guarded), the search one
      check further when it gives check, else the static evaluation. */
  method ReplyMethod<P, M>(g: Game<P, M>, q: P, engineWhite: bool, attackerMaxes: bool, guarded: bool, rem: nat, j: nat)
    returns (rr: SearchResult<M>)
    requires rem > 0 && j < |g.legal(q, engineWhite)|
    ensures rr == Reply(g, q, engineWhite, attackerMaxes, guarded, rem, j)
    decreases rem, 0
  {
    var my := g.legal(q, engineWhite)[j];
    var r := g.play(q, my);
    if guarded && g.over(r) {
      return SearchResult(g.terminal(r, 0), [my]);
    }
    var sr;
    if g.checked(r, !engineWhite) {
      sr := CheckSearchMethod(g, r, engineWhite, attackerMaxes, guarded, rem - 1);
    } else {
      sr := SearchResult(g.evaluate(r), []);
    }
    return SearchResult(sr.score, [my] + sr.pv);
  }
}
