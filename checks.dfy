/** `forcedCheckSequenceWithPV` of `ai.AlphaBetaC2` and `ai.BetterSquares`:
    after the engine's move gives check, a search that follows only checks.
    The defender (the side not the engine's) tries every legal move; the
    engine answers with every legal reply; a reply that gives check again
    is searched further, up to `rem` checks, any other is scored
    statically.  `guarded` selects the `BetterSquares` version, which also
    scores a position that is over right after either move, and keeps the
    defender's moves in its line.

    `attackerMaxes` is how the search orients the scores, which are
    white's: the defender keeps the smallest and the engine the largest
    when it holds.  The code always searches that way; for an engine
    playing black that gives each side the other's aim (see the findings
    in the README).  The roots call the search as written; `ForcedCheck`
    is the search oriented by the engine's colour. */
module ForcedChecks {
  import opened Wrappers
  import opened Evaluation
  import opened Search
  import opened SearchFacts
  import opened Selection
  import opened PrincipalVariation

  /** The scores of a list of results. */
  function Scores<M>(rs: seq<SearchResult<M>>): (s: seq<int>)
    ensures |s| == |rs| && forall k | 0 <= k < |rs| :: s[k] == rs[k].score
  {
    seq(|rs|, k requires 0 <= k < |rs| => rs[k].score)
  }

  /** The result the loop ends with: the picked one, or the sentinel with
      an empty line. */
  function Chosen<M>(rs: seq<SearchResult<M>>, c: Choice): SearchResult<M>
  {
    if c.index.Some? && c.index.value < |rs| then rs[c.index.value] else SearchResult(c.value, [])
  }

  /** The search at `p`, the defender to move: a static leaf when no check
      is left, the defender is not in check or the game is over; the
      terminal score when the defender has no move; otherwise the defence
      best for the defender. */
  function CheckSearch<P, M>(g: Game<P, M>, p: P, engineWhite: bool, attackerMaxes: bool, guarded: bool, rem: nat): SearchResult<M>
    decreases rem, 2, 0
  {
    if rem == 0 || !g.checked(p, !engineWhite) || g.over(p) then
      SearchResult(if g.over(p) then g.terminal(p, 0) else g.evaluate(p), [])
    else
      var n := |g.legal(p, !engineWhite)|;
      if n == 0 then SearchResult(g.terminal(p, 0), [])
      else
        var ds := Defences(g, p, engineWhite, attackerMaxes, guarded, rem);
        Chosen(ds, Select(!attackerMaxes, Scores(ds), Sentinel(!attackerMaxes)))
  }

  /** The defences' results, in the order the defender's moves are listed. */
  function Defences<P, M>(g: Game<P, M>, p: P, engineWhite: bool, attackerMaxes: bool, guarded: bool, rem: nat): (ds: seq<SearchResult<M>>)
    requires rem > 0
    ensures |ds| == |g.legal(p, !engineWhite)|
    ensures forall k | 0 <= k < |ds| :: ds[k] == Defence(g, p, engineWhite, attackerMaxes, guarded, rem, k)
    decreases rem, 1, 1
  {
    var n := |g.legal(p, !engineWhite)|;
    seq(n, k requires 0 <= k < n => Defence(g, p, engineWhite, attackerMaxes, guarded, rem, k))
  }

  /** What the k-th defence is worth: terminal when it ends the game
      (guarded only) or leaves the engine without a reply, else the reply
      best for the engine.  The guarded version puts the defence in front
      of the line. */
  function Defence<P, M>(g: Game<P, M>, p: P, engineWhite: bool, attackerMaxes: bool, guarded: bool, rem: nat, k: nat): SearchResult<M>
    requires rem > 0 && k < |g.legal(p, !engineWhite)|
    decreases rem, 1, 0
  {
    var opp := g.legal(p, !engineWhite)[k];
    var q := g.play(p, opp);
    var n := |g.legal(q, engineWhite)|;
    if guarded && g.over(q) then SearchResult(g.terminal(q, 0), [opp])
    else if n == 0 then SearchResult(g.terminal(q, 0), if guarded then [opp] else [])
    else
      var rs := Replies(g, q, engineWhite, attackerMaxes, guarded, rem);
      var best := Chosen(rs, Select(attackerMaxes, Scores(rs), Sentinel(attackerMaxes)));
      if guarded then SearchResult(best.score, [opp] + best.pv) else best
  }

  /** The engine's replies' results at `q`, in the order they are listed. */
  function Replies<P, M>(g: Game<P, M>, q: P, engineWhite: bool, attackerMaxes: bool, guarded: bool, rem: nat): (rs: seq<SearchResult<M>>)
    requires rem > 0
    ensures |rs| == |g.legal(q, engineWhite)|
    ensures forall j | 0 <= j < |rs| :: rs[j] == Reply(g, q, engineWhite, attackerMaxes, guarded, rem, j)
    decreases rem, 0, 1
  {
    var n := |g.legal(q, engineWhite)|;
    seq(n, j requires 0 <= j < n => Reply(g, q, engineWhite, attackerMaxes, guarded, rem, j))
  }

  /** What the engine's j-th reply at `q` is worth: terminal when it ends
      the game (guarded only), the search one check further when it gives
      check, the static evaluation otherwise; its line starts with it. */
  function Reply<P, M>(g: Game<P, M>, q: P, engineWhite: bool, attackerMaxes: bool, guarded: bool, rem: nat, j: nat): SearchResult<M>
    requires rem > 0 && j < |g.legal(q, engineWhite)|
    decreases rem, 0, 0
  {
    var my := g.legal(q, engineWhite)[j];
    var r := g.play(q, my);
    if guarded && g.over(r) then SearchResult(g.terminal(r, 0), [my])
    else
      var sr := if g.checked(r, !engineWhite) then CheckSearch(g, r, engineWhite, attackerMaxes, guarded, rem - 1)
                else SearchResult(g.evaluate(r), []);
      SearchResult(sr.score, [my] + sr.pv)
  }

  // ------------------------------------------------------------ bounds

  /** With a bounded game every value of the search is within the bound:
      terminal scores (taken with depth 0) and evaluations are, and a loop
      over at least one move never keeps its sentinel. */
  lemma {:induction false} CheckBound<P(!new), M>(g: Game<P, M>, p: P, engineWhite: bool, attackerMaxes: bool, guarded: bool, rem: nat, bound: int)
    requires Bounded(g, bound) && bound < MaxValue
    ensures -bound <= CheckSearch(g, p, engineWhite, attackerMaxes, guarded, rem).score <= bound
    decreases rem, 2, 0
  {
    if rem > 0 && g.checked(p, !engineWhite) && !g.over(p) {
      var n := |g.legal(p, !engineWhite)|;
      if n > 0 {
        var ds := Defences(g, p, engineWhite, attackerMaxes, guarded, rem);
        forall k | 0 <= k < n
          ensures -bound <= ds[k].score <= bound
        {
          DefenceBound(g, p, engineWhite, attackerMaxes, guarded, rem, k, bound);
        }
        ChosenBound(ds, !attackerMaxes, bound);
      }
    }
  }

  lemma {:induction false} DefenceBound<P(!new), M>(g: Game<P, M>, p: P, engineWhite: bool, attackerMaxes: bool, guarded: bool, rem: nat, k: nat, bound: int)
    requires Bounded(g, bound) && bound < MaxValue
    requires rem > 0 && k < |g.legal(p, !engineWhite)|
    ensures -bound <= Defence(g, p, engineWhite, attackerMaxes, guarded, rem, k).score <= bound
    decreases rem, 1, 0
  {
    var q := g.play(p, g.legal(p, !engineWhite)[k]);
    var n := |g.legal(q, engineWhite)|;
    if !(guarded && g.over(q)) && n > 0 {
      var rs := Replies(g, q, engineWhite, attackerMaxes, guarded, rem);
      forall j | 0 <= j < n
        ensures -bound <= rs[j].score <= bound
      {
        ReplyBound(g, q, engineWhite, attackerMaxes, guarded, rem, j, bound);
      }
      ChosenBound(rs, attackerMaxes, bound);
    }
  }

  lemma {:induction false} ReplyBound<P(!new), M>(g: Game<P, M>, q: P, engineWhite: bool, attackerMaxes: bool, guarded: bool, rem: nat, j: nat, bound: int)
    requires Bounded(g, bound) && bound < MaxValue
    requires rem > 0 && j < |g.legal(q, engineWhite)|
    ensures -bound <= Reply(g, q, engineWhite, attackerMaxes, guarded, rem, j).score <= bound
    decreases rem, 0, 0
  {
    var r := g.play(q, g.legal(q, engineWhite)[j]);
    if !(guarded && g.over(r)) && g.checked(r, !engineWhite) {
      CheckBound(g, r, engineWhite, attackerMaxes, guarded, rem - 1, bound);
    }
  }

  /** A loop over bounded results, at least one, ends on one of them. */
  lemma ChosenBound<M>(rs: seq<SearchResult<M>>, maxing: bool, bound: int)
    requires |rs| > 0 && bound < MaxValue
    requires forall k | 0 <= k < |rs| :: -bound <= rs[k].score <= bound
    ensures var c := Select(maxing, Scores(rs), Sentinel(maxing));
            c.index.Some? && c.index.value < |rs| && Chosen(rs, c) == rs[c.index.value]
    ensures -bound <= Chosen(rs, Select(maxing, Scores(rs), Sentinel(maxing))).score <= bound
  {
    SelectFirstBest(maxing, Scores(rs), Sentinel(maxing));
    assert Better(maxing, Scores(rs)[0], Sentinel(maxing));
  }

  // ------------------------------------------------------------ the choices

  /** A loop over bounded results, at least one, ends on the first one
      best for the side. */
  lemma ChosenFirstBest<M>(rs: seq<SearchResult<M>>, maxing: bool, bound: int)
    requires |rs| > 0 && bound < MaxValue
    requires forall k | 0 <= k < |rs| :: -bound <= rs[k].score <= bound
    ensures var r := Chosen(rs, Select(maxing, Scores(rs), Sentinel(maxing)));
            exists k | 0 <= k < |rs| ::
              && r == rs[k]
              && (forall i | 0 <= i < |rs| :: !Better(maxing, rs[i].score, r.score))
              && (forall i | 0 <= i < k :: Better(maxing, r.score, rs[i].score))
  {
    ChosenBound(rs, maxing, bound);
    SelectFirstBest(maxing, Scores(rs), Sentinel(maxing));
    var k := Select(maxing, Scores(rs), Sentinel(maxing)).index.value;
    assert Chosen(rs, Select(maxing, Scores(rs), Sentinel(maxing))) == rs[k];
  }

  /** At a node that searches, the result is the first defence best for
      the defender: no defence scores better for it, and every defence
      before the chosen one scores strictly worse. */
  lemma DefenderChooses<P(!new), M>(g: Game<P, M>, p: P, engineWhite: bool, attackerMaxes: bool, guarded: bool, rem: nat, bound: int)
    requires Bounded(g, bound) && bound < MaxValue
    requires rem > 0 && g.checked(p, !engineWhite) && !g.over(p) && |g.legal(p, !engineWhite)| > 0
    ensures var r, n := CheckSearch(g, p, engineWhite, attackerMaxes, guarded, rem), |g.legal(p, !engineWhite)|;
            exists k | 0 <= k < n ::
              && r == Defence(g, p, engineWhite, attackerMaxes, guarded, rem, k)
              && (forall i | 0 <= i < n :: !Better(!attackerMaxes, Defence(g, p, engineWhite, attackerMaxes, guarded, rem, i).score, r.score))
              && (forall i | 0 <= i < k :: Better(!attackerMaxes, r.score, Defence(g, p, engineWhite, attackerMaxes, guarded, rem, i).score))
  {
    var n := |g.legal(p, !engineWhite)|;
    var ds := Defences(g, p, engineWhite, attackerMaxes, guarded, rem);
    forall k | 0 <= k < n
      ensures -bound <= ds[k].score <= bound
    {
      DefenceBound(g, p, engineWhite, attackerMaxes, guarded, rem, k, bound);
    }
    ChosenFirstBest(ds, !attackerMaxes, bound);
  }

  /** A defence that leaves the engine replies is worth the first reply
      best for the engine, its line that reply's (after the defence, in
      the guarded version). */
  lemma EngineChooses<P(!new), M>(g: Game<P, M>, p: P, engineWhite: bool, attackerMaxes: bool, guarded: bool, rem: nat, k: nat, bound: int)
    requires Bounded(g, bound) && bound < MaxValue
    requires rem > 0 && k < |g.legal(p, !engineWhite)|
    requires var q := g.play(p, g.legal(p, !engineWhite)[k]);
             !(guarded && g.over(q)) && |g.legal(q, engineWhite)| > 0
    ensures var opp := g.legal(p, !engineWhite)[k];
            var q := g.play(p, opp);
            var d, n := Defence(g, p, engineWhite, attackerMaxes, guarded, rem, k), |g.legal(q, engineWhite)|;
            exists j | 0 <= j < n ::
              && d.score == Reply(g, q, engineWhite, attackerMaxes, guarded, rem, j).score
              && d.pv == (if guarded then [opp] else []) + Reply(g, q, engineWhite, attackerMaxes, guarded, rem, j).pv
              && (forall i | 0 <= i < n :: !Better(attackerMaxes, Reply(g, q, engineWhite, attackerMaxes, guarded, rem, i).score, d.score))
              && (forall i | 0 <= i < j :: Better(attackerMaxes, d.score, Reply(g, q, engineWhite, attackerMaxes, guarded, rem, i).score))
  {
    var opp := g.legal(p, !engineWhite)[k];
    var q := g.play(p, opp);
    var n := |g.legal(q, engineWhite)|;
    var rs := Replies(g, q, engineWhite, attackerMaxes, guarded, rem);
    forall j | 0 <= j < n
      ensures -bound <= rs[j].score <= bound
    {
      ReplyBound(g, q, engineWhite, attackerMaxes, guarded, rem, j, bound);
    }
    ChosenFirstBest(rs, attackerMaxes, bound);
    var best := Chosen(rs, Select(attackerMaxes, Scores(rs), Sentinel(attackerMaxes)));
    assert Defence(g, p, engineWhite, attackerMaxes, guarded, rem, k)
           == if guarded then SearchResult(best.score, [opp] + best.pv) else best;
    assert [] + best.pv == best.pv;
  }

  // ------------------------------------------------------------ the lines

  /** Legal moves from `p`, `white` moving first, the sides alternating. */
  ghost predicate LegalLine<P, M>(g: Game<P, M>, p: P, white: bool, line: seq<M>)
    decreases |line|
  {
    |line| == 0 || (line[0] in g.legal(p, white) && LegalLine(g, g.play(p, line[0]), !white, line[1..]))
  }

  /** The position after the defender's k-th legal move. */
  function Defended<P, M>(g: Game<P, M>, p: P, engineWhite: bool, k: nat): P
    requires k < |g.legal(p, !engineWhite)|
  {
    g.play(p, g.legal(p, !engineWhite)[k])
  }

  /** The engine's moves of a line from `p`, the defender to move, with
      every defence left out: each move answers some legal defence. */
  ghost predicate ReplyLine<P, M>(g: Game<P, M>, p: P, engineWhite: bool, line: seq<M>)
    decreases |line|, 1
  {
    |line| == 0 || exists k | 0 <= k < |g.legal(p, !engineWhite)| :: AttackLine(g, Defended(g, p, engineWhite, k), engineWhite, line)
  }

  /** Such a line from `q`, the engine to move. */
  ghost predicate AttackLine<P, M>(g: Game<P, M>, q: P, engineWhite: bool, line: seq<M>)
    decreases |line|, 0
  {
    |line| > 0 && line[0] in g.legal(q, engineWhite) && ReplyLine(g, g.play(q, line[0]), engineWhite, line[1..])
  }

  /** The line returned: in the guarded version a line of legal moves from
      the defender's, two per check at most; in the other the engine's
      moves alone, one per check at most. */
  lemma {:induction false} CheckLines<P, M>(g: Game<P, M>, p: P, engineWhite: bool, attackerMaxes: bool, guarded: bool, rem: nat)
    ensures var r := CheckSearch(g, p, engineWhite, attackerMaxes, guarded, rem);
            && (guarded ==> LegalLine(g, p, !engineWhite, r.pv) && |r.pv| <= 2 * rem)
            && (!guarded ==> ReplyLine(g, p, engineWhite, r.pv) && |r.pv| <= rem)
    decreases rem, 2, 0
  {
    if rem > 0 && g.checked(p, !engineWhite) && !g.over(p) {
      var n := |g.legal(p, !engineWhite)|;
      if n > 0 {
        var ds := Defences(g, p, engineWhite, attackerMaxes, guarded, rem);
        var c := Select(!attackerMaxes, Scores(ds), Sentinel(!attackerMaxes));
        if c.index.Some? && c.index.value < n {
          var k := c.index.value;
          DefenceLines(g, p, engineWhite, attackerMaxes, guarded, rem, k);
        }
      }
    }
  }

  lemma {:induction false} DefenceLines<P, M>(g: Game<P, M>, p: P, engineWhite: bool, attackerMaxes: bool, guarded: bool, rem: nat, k: nat)
    requires rem > 0 && k < |g.legal(p, !engineWhite)|
    ensures var d := Defence(g, p, engineWhite, attackerMaxes, guarded, rem, k);
            && (guarded ==> LegalLine(g, p, !engineWhite, d.pv) && |d.pv| <= 2 * rem)
            && (!guarded ==> ReplyLine(g, p, engineWhite, d.pv) && |d.pv| <= rem)
    decreases rem, 1, 0
  {
    var opp := g.legal(p, !engineWhite)[k];
    var q := g.play(p, opp);
    var n := |g.legal(q, engineWhite)|;
    var d := Defence(g, p, engineWhite, attackerMaxes, guarded, rem, k);
    if !(guarded && g.over(q)) && n > 0 {
      var rs := Replies(g, q, engineWhite, attackerMaxes, guarded, rem);
      var c := Select(attackerMaxes, Scores(rs), Sentinel(attackerMaxes));
      var best := Chosen(rs, c);
      if c.index.Some? && c.index.value < n {
        ReplyLines(g, q, engineWhite, attackerMaxes, guarded, rem, c.index.value);
      }
      assert guarded ==> LegalLine(g, q, engineWhite, best.pv) && |best.pv| <= 2 * rem - 1;
      assert !guarded ==> (|best.pv| == 0 || AttackLine(g, q, engineWhite, best.pv)) && |best.pv| <= rem;
      if guarded {
        assert d.pv == [opp] + best.pv && d.pv[1..] == best.pv;
      } else if |best.pv| > 0 {
        assert AttackLine(g, Defended(g, p, engineWhite, k), engineWhite, d.pv);
      }
    } else if guarded {
      assert d.pv == [opp] && d.pv[1..] == [];
    }
  }

  lemma {:induction false} ReplyLines<P, M>(g: Game<P, M>, q: P, engineWhite: bool, attackerMaxes: bool, guarded: bool, rem: nat, j: nat)
    requires rem > 0 && j < |g.legal(q, engineWhite)|
    ensures var rr := Reply(g, q, engineWhite, attackerMaxes, guarded, rem, j);
            && (guarded ==> LegalLine(g, q, engineWhite, rr.pv) && |rr.pv| <= 2 * rem - 1)
            && (!guarded ==> AttackLine(g, q, engineWhite, rr.pv) && |rr.pv| <= rem)
    decreases rem, 0, 0
  {
    var my := g.legal(q, engineWhite)[j];
    var r := g.play(q, my);
    var rr := Reply(g, q, engineWhite, attackerMaxes, guarded, rem, j);
    if guarded && g.over(r) {
      assert rr.pv == [my] && rr.pv[1..] == [];
    } else {
      var sr := if g.checked(r, !engineWhite) then CheckSearch(g, r, engineWhite, attackerMaxes, guarded, rem - 1)
                else SearchResult(g.evaluate(r), []);
      if g.checked(r, !engineWhite) {
        CheckLines(g, r, engineWhite, attackerMaxes, guarded, rem - 1);
      }
      assert rr.pv == [my] + sr.pv && rr.pv[1..] == sr.pv;
    }
  }

  // ------------------------------------------------------------ orientation

  /** The search the engine uses: oriented by its own colour, so that a
      white defender keeps the largest score and a black one the smallest,
      and the engine the reverse. */
  function ForcedCheck<P, M>(g: Game<P, M>, p: P, engineWhite: bool, guarded: bool, rem: nat): SearchResult<M>
  {
    CheckSearch(g, p, engineWhite, engineWhite, guarded, rem)
  }

  /** Oriented by the engine's colour, the defender plays for its own
      colour: no defence scores better for it than the result, whichever
      colour the engine has. */
  lemma DefenderPlaysForItsColour<P(!new), M>(g: Game<P, M>, p: P, engineWhite: bool, guarded: bool, rem: nat, bound: int)
    requires Bounded(g, bound) && bound < MaxValue
    requires rem > 0 && g.checked(p, !engineWhite) && !g.over(p)
    ensures var r := ForcedCheck(g, p, engineWhite, guarded, rem);
            forall i | 0 <= i < |g.legal(p, !engineWhite)| ::
              var d := Defence(g, p, engineWhite, engineWhite, guarded, rem, i).score;
              (engineWhite ==> r.score <= d) && (!engineWhite ==> r.score >= d)
  {
    if |g.legal(p, !engineWhite)| > 0 {
      DefenderChooses(g, p, engineWhite, engineWhite, guarded, rem, bound);
    }
  }

  /** A game of five positions: white, to move at 0 and in check, defends
      with a move to 1 or to 2; black then has one reply each, to 3 or to
      4; a position's evaluation is its number. */
  function CheckExample(): Game<int, int>
  {
    Game(
      (p: int) => false,
      (p: int, d: nat) => 0,
      (p: int) => p,
      (p: int, white: bool) => if p == 0 && white then [1, 2] else if (p == 1 || p == 2) && !white then [p + 2] else [],
      (p: int, maxing: bool) => [],
      (p: int, maxing: bool) => [],
      (p: int, white: bool) => p == 0 && white,
      (p: int, m: int) => m,
      false, false)
  }

  /** With black as the engine, the search as written (always oriented for
      white) promises black 3, though white defends with the move to 2,
      after which black's only reply scores 4: the defender was taken to
      play for black.  Oriented by the engine's colour the search gives 4. */
  lemma BlackCheckMisjudged()
    ensures CheckSearch(CheckExample(), 0, false, true, false, 1).score == 3
    ensures Defence(CheckExample(), 0, false, true, false, 1, 1).score == 4
    ensures ForcedCheck(CheckExample(), 0, false, false, 1).score == 4
  {
    var g := CheckExample();
    ExampleShaped();
    ExampleDefences(g, true);
    ExampleDefences(g, false);
    var ds := [SearchResult(3, [3]), SearchResult(4, [4])];
    assert Scores(ds) == [3, 4];
    assert Scores(ds)[..1] == [3] && Scores(ds)[..1][..0] == [];
    assert Select(false, Scores(ds), MaxValue) == Choice(Some(0), 3);
    assert Select(true, Scores(ds), MinValue) == Choice(Some(1), 4);
  }

  /** What the example's searches read of it. */
  ghost predicate ExampleShape(g: Game<int, int>)
  {
    && g.legal(0, true) == [1, 2] && g.legal(1, false) == [3] && g.legal(2, false) == [4]
    && g.checked(0, true) && !g.checked(3, true) && !g.checked(4, true)
    && (forall m :: g.play(0, m) == m) && g.play(1, 3) == 3 && g.play(2, 4) == 4
    && !g.over(0) && !g.over(1) && !g.over(2) && !g.over(3) && !g.over(4)
    && g.evaluate(3) == 3 && g.evaluate(4) == 4
  }

  lemma ExampleShaped()
    ensures ExampleShape(CheckExample())
  {
  }

  lemma ExampleDefences(g: Game<int, int>, o: bool)
    requires ExampleShape(g)
    ensures Defences(g, 0, false, o, false, 1) == [SearchResult(3, [3]), SearchResult(4, [4])]
  {
    ExampleDefence(g, o, 1, 3);
    ExampleDefence(g, o, 2, 4);
  }

  /** The defence to `q` (1 or 2) is worth black's only reply there. */
  lemma ExampleDefence(g: Game<int, int>, o: bool, q: int, v: int)
    requires ExampleShape(g)
    requires (q == 1 && v == 3) || (q == 2 && v == 4)
    ensures Defence(g, 0, false, o, false, 1, q - 1) == SearchResult(v, [v])
  {
    assert g.legal(0, true)[q - 1] == q && g.play(0, q) == q;
    assert g.legal(q, false) == [v] && g.play(q, v) == v;
    assert Reply(g, q, false, o, false, 1, 0) == SearchResult(v, [v]);
    var rs := Replies(g, q, false, o, false, 1);
    assert rs == [SearchResult(v, [v])];
    assert Scores(rs) == [v] && Scores(rs)[..0] == [];
    assert Select(o, Scores(rs), Sentinel(o)) == Choice(Some(0), v);
  }
}
