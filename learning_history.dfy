/**
 * `components/LearningHistory.tsx`: the colour a score is drawn in and the
 * rounded accuracy and minutes each record card shows.
 */
module LearningHistory {
  import opened Wrappers
  import opened Database

  /** `getScoreColor`: the `ScoreStandard` minimums as thresholds, inclusive. */
  function GetScoreColor(score: int): string {
    if score >= Excellent.Min() then "#4CAF50"
    else if score >= Good.Min() then "#2196F3"
    else if score >= Fair.Min() then "#FFC107"
    else "#F44336"
  }

  /** The colour of each evaluation band. */
  function BandColor(b: Band): string {
    match b
    case Excellent => "#4CAF50"
    case Good => "#2196F3"
    case Fair => "#FFC107"
    case Poor => "#F44336"
  }

  /**
   * A score is drawn in its evaluation band's colour, and as the four
   * colours differ, the colour alone tells the band.
   */
  lemma ColorMatchesBand(score: int, b: Band)
    ensures GetScoreColor(score) == BandColor(BandOf(score))
    ensures GetScoreColor(score) == BandColor(b) <==> BandOf(score) == b
  {
    if BandOf(score) != b {
      assert BandColor(BandOf(score))[2] != BandColor(b)[2];
    }
  }

  /** So a card's border colour and the evaluation text under it always agree. */
  lemma ColorAgreesWithEvaluation(score: int, b: Band)
    ensures GetScoreColor(score) == BandColor(b) <==> GetEvaluation(score) == b.Description()
  {
    ColorMatchesBand(score, b);
    EvaluationNamesBand(score, b);
  }

  /** The thresholds are inclusive. */
  lemma ColorBoundaries()
    ensures GetScoreColor(90) == "#4CAF50" && GetScoreColor(89) == "#2196F3"
    ensures GetScoreColor(75) == "#2196F3" && GetScoreColor(74) == "#FFC107"
    ensures GetScoreColor(60) == "#FFC107" && GetScoreColor(59) == "#F44336"
  {
  }

  /**
   * The accuracy shown, `Math.round(correctCount / wordCount * 100)`; with no
   * words the quotient is not a number and nothing meaningful is shown.
   */
  function DisplayedAccuracy(correctCount: nat, wordCount: nat): (r: Option<int>)
    ensures r.Some? <==> wordCount > 0
  {
    if wordCount == 0 then None else Some(Round(correctCount as real / wordCount as real * 100.0))
  }

  /**
   * The shown accuracy is the percentage to within half a point, lies in
   * 0..100 when no more words were right than asked, and is 100 exactly
   * for a perfect round.
   */
  lemma AccuracyBounds(correctCount: nat, wordCount: nat)
    requires wordCount > 0
    ensures var a := DisplayedAccuracy(correctCount, wordCount).value;
            var exact := correctCount as real * 100.0 / wordCount as real;
            a as real - 0.5 <= exact < a as real + 0.5
            && 0 <= a
            && (correctCount <= wordCount ==> a <= 100)
            && (correctCount == wordCount ==> a == 100)
  {
    var q := correctCount as real / wordCount as real;
    assert q * 100.0 == correctCount as real * 100.0 / wordCount as real;
    if correctCount <= wordCount {
      assert q <= 1.0;
      RoundMonotone(q * 100.0, 100.0);
    }
    if correctCount == wordCount {
      assert q == 1.0;
    }
  }

  /** More right answers never show a lower accuracy. */
  lemma AccuracyMonotone(c1: nat, c2: nat, wordCount: nat)
    requires wordCount > 0 && c1 <= c2
    ensures DisplayedAccuracy(c1, wordCount).value <= DisplayedAccuracy(c2, wordCount).value
  {
    var w := wordCount as real;
    assert c1 as real / w <= c2 as real / w;
    RoundMonotone(c1 as real / w * 100.0, c2 as real / w * 100.0);
  }

  /** The minutes shown, `Math.round(timeSpent / 60)`. */
  function DisplayedMinutes(timeSpent: nat): int {
    Round(timeSpent as real / 60.0)
  }

  /** The minutes shown are the seconds to the nearest minute, half a minute rounding up. */
  lemma MinutesNearest(timeSpent: nat)
    ensures var m := DisplayedMinutes(timeSpent);
            0 <= m && 60 * m - 30 <= timeSpent < 60 * m + 30
  {
    var m := DisplayedMinutes(timeSpent);
    var x := timeSpent as real / 60.0;
    assert x * 60.0 == timeSpent as real;
    assert m as real - 0.5 <= x < m as real + 0.5;
    assert (m as real - 0.5) * 60.0 <= timeSpent as real < (m as real + 0.5) * 60.0;
  }

  lemma MinutesExamples()
    ensures DisplayedMinutes(29) == 0 && DisplayedMinutes(30) == 1
    ensures DisplayedMinutes(89) == 1 && DisplayedMinutes(90) == 2
  {
    MinutesNearest(29);
    MinutesNearest(30);
    MinutesNearest(89);
    MinutesNearest(90);
  }

  /** `record.gameType === 'match' ? … : …` */
  function GameLabel(gameType: GameType): string {
    if gameType == MatchGameType then "单词消消乐" else "拼写游戏"
  }
}
