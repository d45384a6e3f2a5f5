/** `getPoints`, the per-prediction rule, and the per-user sum that
    `getTotalPoints` folds over all matches. */
module Points {
  import opened Numbers
  import opened Results

  /** `getPoints`: 6 for the exact score, else 4 for the right goal
      difference, else 2 for the right sign of the difference, else 0.
      JavaScript's NaN compares unequal to everything, so a prediction or a
      result with an unreadable half takes the last branch. */
  function GetPoints(m: Match, p: Prediction): (r: int)
    ensures r == 0 || r == 2 || r == 4 || r == 6
  {
    if StrictEquals(m.score.goals1, p.score.goals1) && StrictEquals(m.score.goals2, p.score.goals2) then 6
    else
      var scoreDiff := Minus(m.score.goals1, m.score.goals2);
      var predictionDiff := Minus(p.score.goals1, p.score.goals2);
      if StrictEquals(scoreDiff, predictionDiff) then 4
      else if StrictEquals(Sign(scoreDiff), Sign(predictionDiff)) then 2
      else 0
  }

  /** Both halves of both scores are numbers. */
  predicate Comparable(m: Match, p: Prediction)
  {
    IsNumeric(m.score) && IsNumeric(p.score)
  }

  /** The same winner, or a draw predicted for a draw. */
  predicate SameOutcome(a1: int, a2: int, p1: int, p2: int)
  {
    (a1 > a2 && p1 > p2) || (a1 < a2 && p1 < p2) || (a1 == a2 && p1 == p2)
  }

  /** 6 points exactly when the predicted score is the actual one. */
  lemma ExactScoreTier(m: Match, p: Prediction)
    ensures GetPoints(m, p) == 6 <==> IsNumeric(m.score) && p.score == m.score
  {
  }

  /** 4 points exactly when the score is missed but the goal difference is right. */
  lemma GoalDifferenceTier(m: Match, p: Prediction)
    ensures GetPoints(m, p) == 4 <==>
      Comparable(m, p) && p.score != m.score
      && m.score.goals1.value - m.score.goals2.value == p.score.goals1.value - p.score.goals2.value
  {
  }

  /** 2 points exactly when the goal difference is missed but the winner is
      right (a draw always has difference 0, so it never lands here). */
  lemma OutcomeTier(m: Match, p: Prediction)
    ensures GetPoints(m, p) == 2 <==>
      Comparable(m, p)
      && m.score.goals1.value - m.score.goals2.value != p.score.goals1.value - p.score.goals2.value
      && SameOutcome(m.score.goals1.value, m.score.goals2.value, p.score.goals1.value, p.score.goals2.value)
  {
  }

  /** 0 points exactly when a half is not a number or the outcome is wrong. */
  lemma NoPointsTier(m: Match, p: Prediction)
    ensures GetPoints(m, p) == 0 <==>
      !Comparable(m, p)
      || !SameOutcome(m.score.goals1.value, m.score.goals2.value, p.score.goals1.value, p.score.goals2.value)
  {
  }

  /** The worked cases of the scoring table: actual 2:1 against 2:1, 3:2,
      and actual 2:0 against 1:0, actual 1:1 against 2:1. */
  lemma ScoringExamples()
    ensures GetPoints(Match("A", "B", Score(Int(2), Int(1)), map[]), Prediction("aha", Score(Int(2), Int(1)))) == 6
    ensures GetPoints(Match("A", "B", Score(Int(2), Int(1)), map[]), Prediction("aha", Score(Int(3), Int(2)))) == 4
    ensures GetPoints(Match("A", "B", Score(Int(2), Int(0)), map[]), Prediction("aha", Score(Int(1), Int(0)))) == 2
    ensures GetPoints(Match("A", "B", Score(Int(1), Int(1)), map[]), Prediction("aha", Score(Int(2), Int(1)))) == 0
  {
  }

  /** Every match of `matches` carries a prediction by `user`. */
  predicate PredictedBy(matches: seq<Match>, user: string)
  {
    forall k :: 0 <= k < |matches| ==> user in matches[k].predictions
  }

  /** `matches.reduce((sum, match) => sum + getPoints(match, match.predictions.get(user)!), 0)`:
      the user's points summed over the matches, left to right. */
  function Total(matches: seq<Match>, user: string): (r: int)
    requires PredictedBy(matches, user)
    ensures 0 <= r <= 6 * |matches|
    ensures r % 2 == 0
  {
    if matches == [] then 0
    else
      var last := matches[|matches| - 1];
      Total(matches[..|matches| - 1], user) + GetPoints(last, last.predictions[user])
  }

  /** A total splits over consecutive blocks of matches. */
  lemma {:induction false} TotalAppend(a: seq<Match>, b: seq<Match>, user: string)
    requires PredictedBy(a, user) && PredictedBy(b, user)
    ensures PredictedBy(a + b, user)
    ensures Total(a + b, user) == Total(a, user) + Total(b, user)
  {
    if b == [] {
      assert a + b == a;
    } else {
      var b' := b[..|b| - 1];
      TotalAppend(a, b', user);
      assert (a + b)[..|a + b| - 1] == a + b';
    }
  }

  /** Each match contributes its own points: the total is the sum over the
      matches taken one at a time. */
  lemma {:induction false} TotalOfOne(m: Match, user: string)
    requires user in m.predictions
    ensures PredictedBy([m], user)
    ensures Total([m], user) == GetPoints(m, m.predictions[user])
  {
    assert [m][..0] == [];
  }
}
