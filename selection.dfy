/** The choice every root loop and the forced-check loops make: walking a
    list of scores from a starting value (an int sentinel, or the score to
    beat), an entry replaces the current pick only when it is strictly
    better for the side choosing.  The pick is therefore the first entry
    with the best score, or none when no entry beats the start. */
module Selection {
  import opened Wrappers

  /** A score is strictly better than another for the side: larger for
      white (`maxing`), smaller for black. */
  predicate Better(maxing: bool, a: int, b: int)
  {
    if maxing then a > b else a < b
  }

  /** The pick: the index of the entry chosen, if any, and the value the
      loop holds at the end (the start when nothing was chosen). */
  datatype Choice = Choice(index: Option<nat>, value: int)

  /** The loop over the scores, as a fold over its prefix. */
  function Select(maxing: bool, scores: seq<int>, start: int): Choice
    decreases |scores|
  {
    if |scores| == 0 then Choice(None, start)
    else
      var c := Select(maxing, scores[..|scores| - 1], start);
      if Better(maxing, scores[|scores| - 1], c.value) then Choice(Some(|scores| - 1), scores[|scores| - 1]) else c
  }

  /** The pick is the first best entry when some entry beats the start,
      and nothing otherwise. */
  lemma {:induction false} SelectFirstBest(maxing: bool, scores: seq<int>, start: int)
    ensures var c := Select(maxing, scores, start);
            && (c.index.None? <==> forall j | 0 <= j < |scores| :: !Better(maxing, scores[j], start))
            && (c.index.None? ==> c.value == start)
            && (c.index.Some? ==>
                  && c.index.value < |scores| && c.value == scores[c.index.value]
                  && Better(maxing, c.value, start)
                  && (forall j | 0 <= j < |scores| :: !Better(maxing, scores[j], c.value))
                  && (forall j | 0 <= j < c.index.value :: Better(maxing, c.value, scores[j])))
    decreases |scores|
  {
    if |scores| > 0 {
      var n := |scores| - 1;
      var front := scores[..n];
      SelectFirstBest(maxing, front, start);
      assert forall j | 0 <= j < n :: front[j] == scores[j];
    }
  }

  /** Two score lists equal on a prefix make the same pick over it. */
  lemma SelectPrefix(maxing: bool, scores: seq<int>, k: nat, start: int)
    requires k < |scores|
    ensures Select(maxing, scores[..k + 1], start)
            == var c := Select(maxing, scores[..k], start);
               if Better(maxing, scores[k], c.value) then Choice(Some(k), scores[k]) else c
  {
    assert scores[..k + 1][..k] == scores[..k];
  }

  /** Scores shifted by a constant, all beating their starts, make the
      same pick, its value shifted alike. */
  lemma {:induction false} SelectShift(maxing: bool, s: seq<int>, t: seq<int>, c: int, start: int, start': int)
    requires |s| == |t| && forall k | 0 <= k < |s| :: t[k] == s[k] + c
    requires forall k | 0 <= k < |s| :: Better(maxing, s[k], start) && Better(maxing, t[k], start')
    ensures Select(maxing, t, start').index == Select(maxing, s, start).index
    ensures |s| > 0 ==> Select(maxing, t, start').value == Select(maxing, s, start).value + c
    decreases |s|
  {
    if |s| > 0 {
      var n := |s| - 1;
      SelectShift(maxing, s[..n], t[..n], c, start, start');
    }
  }
}
