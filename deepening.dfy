/** The timed root searches: iterative deepening in `findBestMoveMinimaxTimed`
    and `findBestMoveAlphaBetaTimed` of `ai.SearchEngine`, and
    `findBestMoveAlphaBetaTimed` of `ai.AlphaBeta`, `ai.AlphaBetaB`, `ai.AlphaBetaC2` and
    `ai.BetterSquares`.  The clock is not modelled: `rounds` is the number
    of depths it lets the search complete, and a depth cut short by the
    clock leaves the move kept unchanged, as the source's exception does. */
module Deepening {
  import opened Wrappers
  import opened Evaluation
  import opened Search
  import opened SearchFacts
  import opened Selection
  import opened PrincipalVariation
  import opened ForcedChecks
  import opened Roots

  // ------------------------------------------------------------ the deepening loop

  /** The i-th depth searched when the search starts at `first` and grows
      by `step`. */
  function DepthAt(first: nat, step: nat, i: nat): nat
  {
    first + i * step
  }

  /** Iterative deepening: each depth's pick, when there is one, replaces
      the move kept (the first legal move to begin with); the loop ends
      after `left` depths, or after a depth that `done` holds of. */
  function Deepen<M>(pick: nat -> Option<M>, done: nat -> bool, first: nat, step: nat, left: nat, best: M): M
    decreases left
  {
    if left == 0 then best
    else
      var best' := if pick(first).Some? then pick(first).value else best;
      if done(first) then best' else Deepen(pick, done, first + step, step, left - 1, best')
  }

  /** One round of the loop, given what the depth picks and whether it
      stops the loop: the pick, if any, replaces the move kept, and unless
      the depth stops the loop the rest goes on from it. */
  lemma DeepenStep<M>(pick: nat -> Option<M>, done: nat -> bool, first: nat, step: nat, left: nat, best: M,
                      picked: Option<M>, stop: bool)
    requires left > 0 && pick(first) == picked && done(first) == stop
    ensures var best' := if picked.Some? then picked.value else best;
            Deepen(pick, done, first, step, left, best)
            == if stop then best' else Deepen(pick, done, first + step, step, left - 1, best')
  {
  }

  /** How many depths the loop searches. */
  function Rounds(done: nat -> bool, first: nat, step: nat, left: nat): nat
    decreases left
  {
    if left == 0 then 0
    else if done(first) then 1
    else 1 + Rounds(done, first + step, step, left - 1)
  }

  /** The depth after the i-th is the (i+1)-th. */
  lemma DepthAtNext(first: nat, step: nat, i: nat)
    ensures DepthAt(first + step, step, i) == DepthAt(first, step, i + 1)
  {
    calc {
      DepthAt(first, step, i + 1);
      first + (i + 1) * step;
      first + step + i * step;
    }
  }

  /** The loop searches depths until the first one `done` holds of, or
      until `left` run out; it returns the last depth's pick when there is
      one, and always either the initial move or some depth's pick. */
  lemma {:induction false} DeepenResult<M>(pick: nat -> Option<M>, done: nat -> bool, first: nat, step: nat, left: nat, best: M)
    ensures var r, n := Deepen(pick, done, first, step, left, best), Rounds(done, first, step, left);
            && n <= left && (left > 0 ==> n > 0)
            && (forall i | 0 <= i < n - 1 :: !done(DepthAt(first, step, i)))
            && (0 < n < left ==> done(DepthAt(first, step, n - 1)))
            && (n == 0 ==> r == best)
            && (n > 0 && pick(DepthAt(first, step, n - 1)).Some? ==> r == pick(DepthAt(first, step, n - 1)).value)
            && (r == best || exists i | 0 <= i < n :: pick(DepthAt(first, step, i)) == Some(r))
    decreases left
  {
    if left > 0 {
      assert DepthAt(first, step, 0) == first;
      var best' := if pick(first).Some? then pick(first).value else best;
      if !done(first) {
        var next := first + step;
        DeepenResult(pick, done, next, step, left - 1, best');
        var n' := Rounds(done, next, step, left - 1);
        var n := n' + 1;
        var r := Deepen(pick, done, next, step, left - 1, best');
        forall i | 0 <= i < n - 1
          ensures !done(DepthAt(first, step, i))
        {
          if i > 0 {
            DepthAtNext(first, step, i - 1);
          }
        }
        if n' > 0 {
          DepthAtNext(first, step, n' - 1);
        }
        if r != best {
          if r == best' {
            assert pick(DepthAt(first, step, 0)) == Some(r);
          } else {
            var i :| 0 <= i < n' && pick(DepthAt(next, step, i)) == Some(r);
            DepthAtNext(first, step, i);
            assert pick(DepthAt(first, step, i + 1)) == Some(r);
          }
        }
      }
    }
  }

  /** Two loops whose picks agree on the depths they may search return the
      same move. */
  lemma {:induction false} DeepenAgree<M>(pick: nat -> Option<M>, pick': nat -> Option<M>, done: nat -> bool,
                                          first: nat, step: nat, left: nat, best: M)
    requires forall i | 0 <= i < left :: pick(DepthAt(first, step, i)) == pick'(DepthAt(first, step, i))
    ensures Deepen(pick, done, first, step, left, best) == Deepen(pick', done, first, step, left, best)
    decreases left
  {
    if left > 0 {
      assert pick(DepthAt(first, step, 0)) == pick'(DepthAt(first, step, 0));
      var best' := if pick(first).Some? then pick(first).value else best;
      var next := first + step;
      forall i | 0 <= i < left - 1
        ensures pick(DepthAt(next, step, i)) == pick'(DepthAt(next, step, i))
      {
        DepthAtNext(first, step, i);
      }
      DeepenAgree(pick, pick', done, next, step, left - 1, best');
    }
  }

  /** The deepening over the odd depths 1, 3, 5, ... */
  lemma DeepenOdd<M>(pick: nat -> Option<M>, done: nat -> bool, left: nat, best: M)
    requires left > 0
    ensures var n := Rounds(done, 1, 2, left);
            && 0 < n <= left
            && (forall d: nat | d < 2 * n - 1 && d % 2 == 1 :: !done(d))
            && (n < left ==> done(2 * n - 1))
            && (pick(2 * n - 1).Some? ==> Deepen(pick, done, 1, 2, left, best) == pick(2 * n - 1).value)
  {
    DeepenResult(pick, done, 1, 2, left, best);
    var n := Rounds(done, 1, 2, left);
    assert DepthAt(1, 2, n - 1) == 2 * n - 1;
    forall d: nat | d < 2 * n - 1 && d % 2 == 1
      ensures !done(d)
    {
      assert DepthAt(1, 2, (d - 1) / 2) == d;
    }
  }

  // ------------------------------------------------------------ SearchEngine

  /** The move the minimax root picks at depth `d`, as the deepening sees it. */
  function MinimaxMove<P, M>(g: Game<P, M>, p: P, engineWhite: bool, fuel: nat, d: nat): Option<M>
  {
    if d == 0 then None else MinimaxRoot(g, p, engineWhite, d, fuel)
  }

  /** `findBestMoveMinimaxTimed`: the minimax root at depths 1, 2, 3, ...
      for as many depths as the clock allows. */
  function MinimaxTimed<P, M>(g: Game<P, M>, p: P, engineWhite: bool, rounds: nat, fuel: nat): Option<M>
  {
    var ms := g.legal(p, engineWhite);
    if |ms| == 0 then None
    else Some(Deepen((d: nat) => MinimaxMove(g, p, engineWhite, fuel, d),
                     (d: nat) => false, 1, 1, rounds, ms[0]))
  }

  /** A root move's score in `SearchEngine.findBestMoveAlphaBetaTimed`: the
      full-window alpha-beta value plus the depth. */
  function TimedValues<P, M>(g: Game<P, M>, p: P, engineWhite: bool, depth: nat, fuel: nat): (vs: seq<int>)
    requires depth > 0
    ensures |vs| == |g.legal(p, engineWhite)|
    ensures forall k | 0 <= k < |vs| ::
              vs[k] == AlphaBeta(g, RootChild(g, p, engineWhite, k), depth - 1, !engineWhite, MinValue, MaxValue, fuel) + depth
  {
    var n := |g.legal(p, engineWhite)|;
    seq(n, k requires 0 <= k < n =>
      AlphaBeta(g, RootChild(g, p, engineWhite, k), depth - 1, !engineWhite, MinValue, MaxValue, fuel) + depth)
  }

  /** One depth of it: the first move strictly best by that score. */
  function TimedPick<P, M>(g: Game<P, M>, p: P, engineWhite: bool, depth: nat, fuel: nat): Option<M>
    requires depth > 0
  {
    Picked(g.legal(p, engineWhite), Select(engineWhite, TimedValues(g, p, engineWhite, depth, fuel), Sentinel(engineWhite)))
  }

  /** The move one depth picks, as the deepening sees it. */
  function TimedMove<P, M>(g: Game<P, M>, p: P, engineWhite: bool, fuel: nat, d: nat): Option<M>
  {
    if d == 0 then None else TimedPick(g, p, engineWhite, d, fuel)
  }

  /** `SearchEngine.findBestMoveAlphaBetaTimed`. */
  function AlphaBetaTimed<P, M>(g: Game<P, M>, p: P, engineWhite: bool, rounds: nat, fuel: nat): Option<M>
  {
    var ms := g.legal(p, engineWhite);
    if |ms| == 0 then None
    else Some(Deepen((d: nat) => TimedMove(g, p, engineWhite, fuel, d),
                     (d: nat) => false, 1, 1, rounds, ms[0]))
  }

  /** Adding the depth to every score changes no pick: without the mate
      cutoff, each depth picks the minimax root's move. */
  lemma TimedPickIsMinimaxRoot<P(!new), M>(g: Game<P, M>, p: P, engineWhite: bool, depth: nat, fuel: nat, bound: int)
    requires depth > 0 && !g.mateCutoff && Bounded(g, bound) && bound + 2 * depth < MaxValue
    requires |g.legal(p, engineWhite)| > 0
    ensures TimedPick(g, p, engineWhite, depth, fuel) == MinimaxRoot(g, p, engineWhite, depth, fuel)
  {
    var vs := MinimaxValues(g, p, engineWhite, depth - 1, fuel);
    var ts := TimedValues(g, p, engineWhite, depth, fuel);
    forall k | 0 <= k < |vs|
      ensures ts[k] == vs[k] + depth
      ensures Better(engineWhite, vs[k], Sentinel(engineWhite)) && Better(engineWhite, ts[k], Sentinel(engineWhite))
    {
      var q := RootChild(g, p, engineWhite, k);
      FullWindowEqualsMinimax(g, q, depth - 1, !engineWhite, fuel, bound);
      MinimaxBound(g, q, depth - 1, !engineWhite, fuel, bound);
    }
    SelectShift(engineWhite, vs, ts, depth, Sentinel(engineWhite), Sentinel(engineWhite));
  }

  /** So the timed alpha-beta root of `SearchEngine` returns the timed
      minimax root's move, whatever depth the clock stops it at. */
  lemma AlphaBetaTimedIsMinimaxTimed<P(!new), M>(g: Game<P, M>, p: P, engineWhite: bool, rounds: nat, fuel: nat, bound: int)
    requires !g.mateCutoff && Bounded(g, bound) && bound + 2 * rounds < MaxValue
    ensures AlphaBetaTimed(g, p, engineWhite, rounds, fuel) == MinimaxTimed(g, p, engineWhite, rounds, fuel)
  {
    var ms := g.legal(p, engineWhite);
    if |ms| > 0 {
      var pick := (d: nat) => TimedMove(g, p, engineWhite, fuel, d);
      var pick' := (d: nat) => MinimaxMove(g, p, engineWhite, fuel, d);
      forall i | 0 <= i < rounds
        ensures pick(DepthAt(1, 1, i)) == pick'(DepthAt(1, 1, i))
      {
        TimedPickIsMinimaxRoot(g, p, engineWhite, DepthAt(1, 1, i), fuel, bound);
      }
      DeepenAgree(pick, pick', (d: nat) => false, 1, 1, rounds, ms[0]);
    }
  }

  // ------------------------------------------------------------ AlphaBetaB

  /** A score that is a mate score for the side. */
  predicate MateFor(white: bool, score: int)
  {
    if white then score >= MateScore else score <= -MateScore
  }

  /** The full-window alpha-beta value of each root move's position. */
  function FullValues<P, M>(g: Game<P, M>, p: P, engineWhite: bool, depth: nat, fuel: nat): (vs: seq<int>)
    ensures |vs| == |g.legal(p, engineWhite)|
    ensures forall k | 0 <= k < |vs| ::
              vs[k] == AlphaBeta(g, RootChild(g, p, engineWhite, k), depth, !engineWhite, MinValue, MaxValue, fuel)
  {
    var n := |g.legal(p, engineWhite)|;
    seq(n, k requires 0 <= k < n => AlphaBeta(g, RootChild(g, p, engineWhite, k), depth, !engineWhite, MinValue, MaxValue, fuel))
  }

  /** One depth of `AlphaBetaB.findBestMoveAlphaBetaTimed`: the first move
      strictly best by its full-window value. */
  function FullPick<P, M>(g: Game<P, M>, p: P, engineWhite: bool, depth: nat, fuel: nat): Option<M>
    requires depth > 0
  {
    Picked(g.legal(p, engineWhite), Select(engineWhite, FullValues(g, p, engineWhite, depth - 1, fuel), Sentinel(engineWhite)))
  }

  /** `mateFoundAtThisDepth`: some root move scored a mate for the engine. */
  predicate MateFound<P, M>(g: Game<P, M>, p: P, engineWhite: bool, depth: nat, fuel: nat)
    requires depth > 0
  {
    var vs := FullValues(g, p, engineWhite, depth - 1, fuel);
    exists k | 0 <= k < |vs| :: MateFor(engineWhite, vs[k])
  }

  /** The move one depth picks, as the deepening sees it. */
  function FullMove<P, M>(g: Game<P, M>, p: P, engineWhite: bool, fuel: nat, d: nat): Option<M>
  {
    if d == 0 then None else FullPick(g, p, engineWhite, d, fuel)
  }

  /** A depth after which the deepening stops: it found a mate. */
  predicate FullMate<P, M>(g: Game<P, M>, p: P, engineWhite: bool, fuel: nat, d: nat)
  {
    d > 0 && MateFound(g, p, engineWhite, d, fuel)
  }

  /** `AlphaBetaB.findBestMoveAlphaBetaTimed`: depths 1, 2, 3, ... until the
      clock runs out or a depth finds a mate for the engine. */
  function AlphaBetaBTimed<P, M>(g: Game<P, M>, p: P, engineWhite: bool, rounds: nat, fuel: nat): Option<M>
  {
    var ms := g.legal(p, engineWhite);
    if |ms| == 0 then None
    else Some(Deepen((d: nat) => FullMove(g, p, engineWhite, fuel, d),
                     (d: nat) => FullMate(g, p, engineWhite, fuel, d), 1, 1, rounds, ms[0]))
  }

  /** With the mate cutoff a depth finds a mate exactly when some root
      move's minimax value is a mate for the engine, and a depth where no
      root move's minimax value is a mate score for either side picks the
      minimax root's move. */
  lemma MateFoundMeansMinimaxMate<P, M>(g: Game<P, M>, p: P, engineWhite: bool, depth: nat, fuel: nat)
    requires depth > 0 && g.mateCutoff
    ensures var mm := MinimaxValues(g, p, engineWhite, depth - 1, fuel);
            && (MateFound(g, p, engineWhite, depth, fuel) <==> exists k | 0 <= k < |mm| :: MateFor(engineWhite, mm[k]))
            && ((forall k | 0 <= k < |mm| :: -MateScore < mm[k] < MateScore) && |g.legal(p, engineWhite)| > 0 ==>
                  FullPick(g, p, engineWhite, depth, fuel) == MinimaxRoot(g, p, engineWhite, depth, fuel))
  {
    var mm := MinimaxValues(g, p, engineWhite, depth - 1, fuel);
    var vs := FullValues(g, p, engineWhite, depth - 1, fuel);
    forall k | 0 <= k < |vs|
      ensures MateFor(engineWhite, vs[k]) <==> MateFor(engineWhite, mm[k])
      ensures -MateScore < mm[k] < MateScore ==> vs[k] == mm[k]
    {
      MateCutoffAgreesWithMinimax(g, RootChild(g, p, engineWhite, k), depth - 1, !engineWhite, fuel);
    }
    if forall k | 0 <= k < |mm| :: -MateScore < mm[k] < MateScore {
      assert vs == mm;
    }
  }

  /** The deepening ends after the first depth that finds a mate for the
      engine, or when the clock runs out, and returns that depth's pick. */
  lemma AlphaBetaBStopsAtMate<P, M>(g: Game<P, M>, p: P, engineWhite: bool, rounds: nat, fuel: nat)
    requires |g.legal(p, engineWhite)| > 0 && rounds > 0
    ensures var n := Rounds((d: nat) => FullMate(g, p, engineWhite, fuel, d), 1, 1, rounds);
            && 0 < n <= rounds
            && (forall d | 0 < d < n :: !MateFound(g, p, engineWhite, d, fuel))
            && (n < rounds ==> MateFound(g, p, engineWhite, n, fuel))
            && (FullPick(g, p, engineWhite, n, fuel).Some? ==>
                  AlphaBetaBTimed(g, p, engineWhite, rounds, fuel) == FullPick(g, p, engineWhite, n, fuel))
  {
    var ms := g.legal(p, engineWhite);
    var pick := (d: nat) => FullMove(g, p, engineWhite, fuel, d);
    var done := (d: nat) => FullMate(g, p, engineWhite, fuel, d);
    DeepenResult(pick, done, 1, 1, rounds, ms[0]);
    var n := Rounds(done, 1, 1, rounds);
    assert DepthAt(1, 1, n - 1) == n;
    forall d | 0 < d < n
      ensures !MateFound(g, p, engineWhite, d, fuel)
    {
      assert DepthAt(1, 1, d - 1) == d;
    }
  }

  // ------------------------------------------------------------ AlphaBeta

  /** `AlphaBeta.findBestMoveAlphaBetaTimed`: the full-window root of
      `AlphaBetaB` at depths 1, 2, 3, ..., with neither the depth added to
      the scores nor the stop on a mate. */
  function AlphaBetaPlainTimed<P, M>(g: Game<P, M>, p: P, engineWhite: bool, rounds: nat, fuel: nat): Option<M>
  {
    var ms := g.legal(p, engineWhite);
    if |ms| == 0 then None
    else Some(Deepen((d: nat) => FullMove(g, p, engineWhite, fuel, d),
                     (d: nat) => false, 1, 1, rounds, ms[0]))
  }

  /** Without the mate cutoff, each depth's full-window pick is the
      minimax root's move. */
  lemma FullPickIsMinimaxRoot<P(!new), M>(g: Game<P, M>, p: P, engineWhite: bool, depth: nat, fuel: nat, bound: int)
    requires depth > 0 && !g.mateCutoff && Bounded(g, bound) && bound + depth < MaxValue
    ensures FullPick(g, p, engineWhite, depth, fuel) == MinimaxRoot(g, p, engineWhite, depth, fuel)
  {
    var mm := MinimaxValues(g, p, engineWhite, depth - 1, fuel);
    var vs := FullValues(g, p, engineWhite, depth - 1, fuel);
    forall k | 0 <= k < |vs|
      ensures vs[k] == mm[k]
    {
      FullWindowEqualsMinimax(g, RootChild(g, p, engineWhite, k), depth - 1, !engineWhite, fuel, bound);
    }
    assert vs == mm;
  }

  /** So the timed root of `AlphaBeta` returns the timed minimax root's
      move, whatever depth the clock stops it at. */
  lemma AlphaBetaPlainTimedIsMinimaxTimed<P(!new), M>(g: Game<P, M>, p: P, engineWhite: bool, rounds: nat, fuel: nat, bound: int)
    requires !g.mateCutoff && Bounded(g, bound) && bound + rounds < MaxValue
    ensures AlphaBetaPlainTimed(g, p, engineWhite, rounds, fuel) == MinimaxTimed(g, p, engineWhite, rounds, fuel)
  {
    var ms := g.legal(p, engineWhite);
    if |ms| > 0 {
      var pick := (d: nat) => FullMove(g, p, engineWhite, fuel, d);
      var pick' := (d: nat) => MinimaxMove(g, p, engineWhite, fuel, d);
      forall i | 0 <= i < rounds
        ensures pick(DepthAt(1, 1, i)) == pick'(DepthAt(1, 1, i))
      {
        FullPickIsMinimaxRoot(g, p, engineWhite, DepthAt(1, 1, i), fuel, bound);
      }
      DeepenAgree(pick, pick', (d: nat) => false, 1, 1, rounds, ms[0]);
    }
  }

  // ------------------------------------------------------------ AlphaBetaC2, BetterSquares

  /** A root move's result: the forced-check search (three checks deep,
      oriented as the code writes it: the defender keeps the smallest
      score and the engine the largest, whatever its colour) when the move
      gives check, else the alpha-beta search with its line at `depth`,
      full window. */
  function RootResult<P, M>(g: Game<P, M>, p: P, engineWhite: bool, guarded: bool, depth: nat, fuel: nat, k: nat): SearchResult<M>
    requires k < |g.legal(p, engineWhite)|
  {
    var q := RootChild(g, p, engineWhite, k);
    if g.checked(q, !engineWhite) then CheckSearch(g, q, engineWhite, true, guarded, 3)
    else AlphaBetaPV(g, q, depth, !engineWhite, MinValue, MaxValue, fuel)
  }

  function RootScores<P, M>(g: Game<P, M>, p: P, engineWhite: bool, guarded: bool, depth: nat, fuel: nat): (s: seq<int>)
    ensures |s| == |g.legal(p, engineWhite)|
    ensures forall k | 0 <= k < |s| :: s[k] == RootResult(g, p, engineWhite, guarded, depth, fuel, k).score
  {
    var n := |g.legal(p, engineWhite)|;
    seq(n, k requires 0 <= k < n => RootResult(g, p, engineWhite, guarded, depth, fuel, k).score)
  }

  /** The root loop from the k-th score: a strictly better score is picked,
      and a score that is a mate for the side ends the loop. */
  function SelectStop(maxing: bool, scores: seq<int>, k: nat, c: Choice): Choice
    requires k <= |scores|
    decreases |scores| - k
  {
    if k == |scores| then c
    else
      var c' := if Better(maxing, scores[k], c.value) then Choice(Some(k), scores[k]) else c;
      if MateFor(maxing, scores[k]) then c' else SelectStop(maxing, scores, k + 1, c')
  }

  /** The first score from the k-th on that is a mate for the side, or the
      length when there is none. */
  function FirstMate(maxing: bool, scores: seq<int>, k: nat): (m: nat)
    requires k <= |scores|
    ensures k <= m <= |scores|
    ensures m < |scores| ==> MateFor(maxing, scores[m])
    ensures forall j | k <= j < m :: !MateFor(maxing, scores[j])
    decreases |scores| - k
  {
    if k == |scores| || MateFor(maxing, scores[k]) then k else FirstMate(maxing, scores, k + 1)
  }

  /** The loop is the choice over the scores up to and including the first
      mate for the side: stopping early loses only later moves. */
  lemma {:induction false} SelectStopIsSelect(maxing: bool, scores: seq<int>, k: nat, c: Choice, start: int)
    requires k <= |scores| && c == Select(maxing, scores[..k], start)
    ensures var m := FirstMate(maxing, scores, k);
            SelectStop(maxing, scores, k, c) == Select(maxing, scores[..if m < |scores| then m + 1 else m], start)
    decreases |scores| - k
  {
    if k == |scores| {
      assert scores[..k] == scores;
    } else {
      SelectPrefix(maxing, scores, k, start);
      if !MateFor(maxing, scores[k]) {
        SelectStopIsSelect(maxing, scores, k + 1, SelectStop(maxing, scores[..k + 1], k + 1, Select(maxing, scores[..k + 1], start)), start);
      }
    }
  }

  /** With a start that is no mate for the side, the loop ends on a mate
      for the side exactly when some score is one. */
  lemma SelectStopMate(maxing: bool, scores: seq<int>, start: int)
    requires !MateFor(maxing, start)
    ensures MateFor(maxing, SelectStop(maxing, scores, 0, Choice(None, start)).value)
            <==> exists k | 0 <= k < |scores| :: MateFor(maxing, scores[k])
  {
    assert scores[..0] == [];
    SelectStopIsSelect(maxing, scores, 0, Choice(None, start), start);
    var m := FirstMate(maxing, scores, 0);
    var pre := scores[..if m < |scores| then m + 1 else m];
    SelectFirstBest(maxing, pre, start);
    var c := Select(maxing, pre, start);
    if m < |scores| {
      assert pre[m] == scores[m];
      assert MateFor(maxing, c.value);
    } else {
      assert pre == scores;
    }
  }

  /** One depth of the root of `AlphaBetaC2` and `BetterSquares`. */
  function CheckingPick<P, M>(g: Game<P, M>, p: P, engineWhite: bool, guarded: bool, depth: nat, fuel: nat): Choice
    requires depth > 0
  {
    SelectStop(engineWhite, RootScores(g, p, engineWhite, guarded, depth - 1, fuel), 0, Choice(None, Sentinel(engineWhite)))
  }

  /** The move one depth picks, as the deepening sees it. */
  function CheckingMove<P, M>(g: Game<P, M>, p: P, engineWhite: bool, guarded: bool, fuel: nat, d: nat): Option<M>
  {
    if d == 0 then None else Picked(g.legal(p, engineWhite), CheckingPick(g, p, engineWhite, guarded, d, fuel))
  }

  /** A depth after which the deepening stops: its pick scores a mate for
      the engine. */
  predicate CheckingMate<P, M>(g: Game<P, M>, p: P, engineWhite: bool, guarded: bool, fuel: nat, d: nat)
  {
    d > 0 && MateFor(engineWhite, CheckingPick(g, p, engineWhite, guarded, d, fuel).value)
  }

  /** The deepening of `AlphaBetaC2` and `BetterSquares`: depths 1, 3, 5, ...
      for `left` depths, stopping after a depth whose pick scores a mate
      for the engine. */
  function CheckingTimed<P, M>(g: Game<P, M>, p: P, engineWhite: bool, guarded: bool, left: nat, fuel: nat): Option<M>
  {
    var ms := g.legal(p, engineWhite);
    if |ms| == 0 then None
    else Some(Deepen((d: nat) => CheckingMove(g, p, engineWhite, guarded, fuel, d),
                     (d: nat) => CheckingMate(g, p, engineWhite, guarded, fuel, d), 1, 2, left, ms[0]))
  }

  /** `AlphaBetaC2.findBestMoveAlphaBetaTimed`: as many depths as the clock
      allows. */
  function AlphaBetaC2Timed<P, M>(g: Game<P, M>, p: P, engineWhite: bool, rounds: nat, fuel: nat): Option<M>
  {
    CheckingTimed(g, p, engineWhite, false, rounds, fuel)
  }

  /** `BetterSquares.findBestMoveAlphaBetaTimed`: the clock is read only
      past depth 3, so depths 1 and 3 are always searched. */
  function BetterSquaresTimed<P, M>(g: Game<P, M>, p: P, engineWhite: bool, rounds: nat, fuel: nat): Option<M>
  {
    CheckingTimed(g, p, engineWhite, true, if rounds < 2 then 2 else rounds, fuel)
  }

  /** Each depth picks the first move best for the engine among the moves
      up to the first whose result is a mate for it, and its score is a
      mate for the engine exactly when some root move's result is. */
  lemma CheckingPickFirstBest<P, M>(g: Game<P, M>, p: P, engineWhite: bool, guarded: bool, depth: nat, fuel: nat)
    requires depth > 0
    ensures var s := RootScores(g, p, engineWhite, guarded, depth - 1, fuel);
            var m := FirstMate(engineWhite, s, 0);
            var c := CheckingPick(g, p, engineWhite, guarded, depth, fuel);
            && c == Select(engineWhite, s[..if m < |s| then m + 1 else m], Sentinel(engineWhite))
            && (MateFor(engineWhite, c.value) <==> exists k | 0 <= k < |s| :: MateFor(engineWhite, s[k]))
  {
    var s := RootScores(g, p, engineWhite, guarded, depth - 1, fuel);
    assert s[..0] == [];
    SelectStopIsSelect(engineWhite, s, 0, Choice(None, Sentinel(engineWhite)), Sentinel(engineWhite));
    SelectStopMate(engineWhite, s, Sentinel(engineWhite));
  }

  /** The deepening searches depths 1, 3, 5, ... and ends after the first
      whose root reaches a mate for the engine (`BetterSquares` searching
      at least depths 1 and 3 unless depth 1 does), returning that depth's
      pick when it has one. */
  lemma CheckingTimedStops<P, M>(g: Game<P, M>, p: P, engineWhite: bool, guarded: bool, left: nat, fuel: nat)
    requires |g.legal(p, engineWhite)| > 0 && left > 0
    ensures var n := Rounds((d: nat) => CheckingMate(g, p, engineWhite, guarded, fuel, d), 1, 2, left);
            && 0 < n <= left
            && (forall d: nat | d < 2 * n - 1 && d % 2 == 1 :: !CheckingMate(g, p, engineWhite, guarded, fuel, d))
            && (n < left ==> CheckingMate(g, p, engineWhite, guarded, fuel, 2 * n - 1))
            && (CheckingMove(g, p, engineWhite, guarded, fuel, 2 * n - 1).Some? ==>
                  CheckingTimed(g, p, engineWhite, guarded, left, fuel) == CheckingMove(g, p, engineWhite, guarded, fuel, 2 * n - 1))
  {
    var pick := (d: nat) => CheckingMove(g, p, engineWhite, guarded, fuel, d);
    var done := (d: nat) => CheckingMate(g, p, engineWhite, guarded, fuel, d);
    DeepenOdd(pick, done, left, g.legal(p, engineWhite)[0]);
    var n := Rounds(done, 1, 2, left);
    forall d: nat | d < 2 * n - 1 && d % 2 == 1
      ensures !CheckingMate(g, p, engineWhite, guarded, fuel, d)
    {
      assert !done(d);
    }
  }
}
