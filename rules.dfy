/** The rule-based adjuster `apply_scoring_rules` of score_candidates.py: a
    Japanese-level penalty, then a location penalty, then a floor at 0. */
module Rules {
  import opened Wrappers
  import opened Records

  /** Penalty for the candidate's `japanese_level`; any other value, or a
      missing one, costs nothing. */
  function JapanesePenalty(level: Option<string>): nat {
    if level == Some("Native") then 0
    else if level == Some("Fluent") then 1
    else if level == Some("Business") then 10
    else if level == Some("Reading/Writing") then 20
    else if level == Some("None/Unknown") then 30
    else 0
  }

  /** Penalty for living outside Japan: 50 for a candidate whose Japanese is
      "None/Unknown", 5 for everyone else. */
  function LocationPenalty(country: Option<string>, level: Option<string>): nat {
    if country == Some("Japan") then 0
    else if level == Some("None/Unknown") then 50
    else 5
  }

  /** The adjusted score: the two penalties subtracted, floored at 0. It is
      never negative, never above a non-negative input, and at most 80 below
      the input. */
  function AdjustedScore(score: int, level: Option<string>, country: Option<string>): (r: int)
    ensures r >= 0
    ensures score >= 0 ==> r <= score
    ensures r >= score - 80
    ensures r > 0 ==> r == score - JapanesePenalty(level) - LocationPenalty(country, level)
  {
    var s := score - JapanesePenalty(level) - LocationPenalty(country, level);
    if s > 0 then s else 0
  }

  /** A higher score before the rules never gives a lower score after them. */
  lemma AdjustedScoreMonotone(low: int, high: int, level: Option<string>, country: Option<string>)
    requires low <= high
    ensures AdjustedScore(low, level, country) <= AdjustedScore(high, level, country)
  {
  }

  /** The heaviest combination: no Japanese and outside Japan costs 80. */
  lemma NoJapaneseAbroad(score: int, country: Option<string>)
    requires country != Some("Japan")
    ensures AdjustedScore(score, Some("None/Unknown"), country) == if score > 80 then score - 80 else 0
  {
  }

  /** `apply_scoring_rules`: subtracts the penalties step by step from the
      candidate's current score. */
  method ApplyScoringRules(candidate: Candidate, score: int) returns (r: int)
    ensures r == AdjustedScore(score, candidate.japaneseLevel, candidate.country)
  {
    var baseScore := score;
    // Japanese level
    if candidate.japaneseLevel == Some("Native") {
      baseScore := baseScore - 0;
    } else if candidate.japaneseLevel == Some("Fluent") {
      baseScore := baseScore - 1;
    } else if candidate.japaneseLevel == Some("Business") {
      baseScore := baseScore - 10;
    } else if candidate.japaneseLevel == Some("Reading/Writing") {
      baseScore := baseScore - 20;
    } else if candidate.japaneseLevel == Some("None/Unknown") {
      baseScore := baseScore - 30;
    }

    // Location
    if candidate.country == Some("Japan") {
      baseScore := baseScore - 0;
    } else if candidate.country != Some("Japan") {
      if candidate.japaneseLevel == Some("None/Unknown") {
        baseScore := baseScore - 50;
      } else {
        baseScore := baseScore - 5;
      }
    }

    r := if baseScore > 0 then baseScore else 0;
  }
}
