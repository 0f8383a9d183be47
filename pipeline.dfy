/** The per-candidate pipeline `score_candidates` of score_candidates.py:
    matched levels, bucket, baseline plus tag bonus, the "Perfect Match"
    relabelling, the scoring rules, the escalation gate with its first-N
    quota, and the hand-off to `save_scored_candidates`.

    The scoring oracle (`determine_final_score`, which prompts a language
    model and goes through `generate_score`) is a parameter: given the resume
    text and the adjusted score it yields the "score" entry of its result, or
    `None` when it yields nothing. */
module Pipeline {
  import opened Wrappers
  import opened Taxonomy
  import opened Records
  import opened Tags
  import opened Rules
  import opened Output

  type Oracle = (Option<string>, int) -> Option<int>

  /** What the pipeline computes for a candidate before the escalation gate. */
  datatype Assessment = Assessment(
    finalI: MatchLabel,
    finalF: MatchLabel,
    tableBucket: Bucket,   // the bucket `buckets_table` gives
    bonus: nat,            // the level-4 tag bonus
    initial: int,          // the bucket's `max` plus the bonus
    bucket: Bucket,        // after the "Perfect Match" relabelling
    adjusted: int)         // after `apply_scoring_rules`

  /** The matched-level label of one category for a candidate and a job. */
  function MatchedLabel(job: Job, candidate: Candidate, category: Category): MatchLabel {
    MatchLabel(category, EqualRun(job.labels.Of(category).Levels(), candidate.labels.Of(category).Levels()))
  }

  /** `None` when the candidate is skipped before the gate: no bucket for the
      matched pair, or a missing tag field. */
  function Assess(candidate: Candidate, job: Job): Option<Assessment> {
    var finalI := MatchedLabel(job, candidate, Industry);
    var finalF := MatchedLabel(job, candidate, Function);
    match BucketFor(finalF, finalI)
    case None => None
    case Some(b) =>
      if !TagFieldsPresent(candidate.labels, job.labels) then None
      else
        var bonus := TagBonus(candidate.labels, job.labels);
        var initial := b.MaxScore() + bonus;
        var bucket := if initial > 84 then PerfectMatch else b;
        Some(Assessment(finalI, finalF, b, bonus, initial, bucket,
                        AdjustedScore(initial, candidate.japaneseLevel, candidate.country)))
  }

  /** The escalation gate: a high adjusted score, or any positive quota. */
  predicate Escalates(adjusted: int, quota: int) {
    adjusted >= 71 || quota > 0
  }

  /** The outcome of one row, with the oracle called as evidently intended:
      an escalated candidate takes the oracle's score, and is dropped when
      the oracle yields nothing or 0. A row without resume text is dropped
      when that text is removed. */
  function ScoreRow(row: Row, job: Job, quota: int, oracle: Oracle): Option<Scored> {
    match Assess(row.candidate, job)
    case None => None
    case Some(a) =>
      if Escalates(a.adjusted, quota) then
        match oracle(row.resumeText, a.adjusted)
        case None => None
        case Some(v) =>
          if v != 0 && row.resumeText.Some? then
            Some(Scored(row.candidate, a.finalI, a.finalF, a.bucket, v))
          else None
      else if row.resumeText.Some? then
        Some(Scored(row.candidate, a.finalI, a.finalF, a.bucket, a.adjusted))
      else None
  }

  /** How many rows the loop looks at: the first `quota` when it is positive. */
  function Considered(rowCount: nat, quota: int): nat {
    if quota > 0 && quota < rowCount then quota else rowCount
  }

  /** The outcome of every row, in row order. */
  function Outcomes(rows: seq<Row>, job: Job, quota: int, oracle: Oracle): (r: seq<Option<Scored>>)
    ensures |r| == |rows|
    ensures forall k :: 0 <= k < |rows| ==> r[k] == ScoreRow(rows[k], job, quota, oracle)
  {
    seq(|rows|, k requires 0 <= k < |rows| => ScoreRow(rows[k], job, quota, oracle))
  }

  /** The rows that are kept, in order: what `scored_candidates.append`
      collects. */
  function Kept(outcomes: seq<Option<Scored>>): seq<Scored> {
    if outcomes == [] then []
    else
      var last := outcomes[|outcomes| - 1];
      Kept(outcomes[..|outcomes| - 1]) + (if last.Some? then [last.value] else [])
  }

  /** The list `score_candidates` hands to `save_scored_candidates`. */
  function ScoreAll(rows: seq<Row>, job: Job, quota: int, oracle: Oracle): seq<Scored> {
    Kept(Outcomes(rows[..Considered(|rows|, quota)], job, quota, oracle))
  }

  /** The row loop up to the escalation gate: matched levels, bucket, tag
      bonus, "Perfect Match" relabelling and scoring rules. `None` stands for
      a `continue` or for an exception the loop catches. */
  method AssessCandidate(candidate: Candidate, job: Job) returns (a: Option<Assessment>)
    ensures a.Some? <==> Assess(candidate, job).Some?
    ensures a.Some? ==> a.value == Assess(candidate, job).value
  {
    var finalI := FinalMatchedLevel(job.labels.industry, candidate.labels.industry, Industry);
    var finalF := FinalMatchedLevel(job.labels.jobFunction, candidate.labels.jobFunction, Function);
    var bucket := BucketFor(finalF, finalI);
    if bucket.None? {
      return None;
    }

    var initialScore := bucket.value.MaxScore();
    var points := GetI4AndF4Points(candidate.labels, job.labels);
    if points.None? {
      return None;
    }
    var score := initialScore + points.value;
    var scoredBucket := bucket.value;
    if score > 84 {
      scoredBucket := PerfectMatch;
    }

    var adjusted := ApplyScoringRules(candidate, score);
    a := Some(Assessment(finalI, finalF, bucket.value, points.value, score, scoredBucket, adjusted));
  }

  /** The body of the row loop, with the escalation gate; `None` means the
      row is not appended. */
  method ScoreOneRow(row: Row, job: Job, quota: int, oracle: Oracle) returns (r: Option<Scored>)
    ensures r.Some? <==> ScoreRow(row, job, quota, oracle).Some?
    ensures r.Some? ==> r.value == ScoreRow(row, job, quota, oracle).value
  {
    var assessed := AssessCandidate(row.candidate, job);
    if assessed.None? {
      return None;
    }
    var a := assessed.value;
    var score := a.adjusted;
    if score >= 71 || quota > 0 {
      var finalScore := oracle(row.resumeText, score);
      if finalScore.None? || finalScore.value == 0 {
        return None;
      }
      score := finalScore.value;
    }

    if row.resumeText.None? {
      return None;
    }
    r := Some(Scored(row.candidate, a.finalI, a.finalF, a.bucket, score));
  }

  /** `score_candidates`: scores the rows in order, stopping at the quota,
      and saves what it kept. */
  method ScoreCandidates(job: Job, rows: seq<Row>, quota: int, oracle: Oracle) returns (file: Option<OutputFile>)
    ensures file == SaveScoredCandidates(ScoreAll(rows, job, quota, oracle), job)
  {
    var scored: seq<Scored> := [];
    var index := 0;
    while index < |rows|
      invariant index <= |rows|
      invariant quota > 0 ==> index <= quota
      invariant scored == Kept(Outcomes(rows[..index], job, quota, oracle))
    {
      if quota > 0 && index >= quota {
        break;
      }
      var outcome := ScoreOneRow(rows[index], job, quota, oracle);
      OutcomesExtend(rows, index, job, quota, oracle);
      KeptAppend(Outcomes(rows[..index], job, quota, oracle), ScoreRow(rows[index], job, quota, oracle));
      if outcome.Some? {
        scored := scored + [outcome.value];
      }
      index := index + 1;
    }
    file := SaveScoredCandidates(scored, job);
  }

  /** A candidate is skipped before the gate exactly when its level-1
      industry or function label differs from the job's (no bucket), or one
      of the four tag fields is missing. */
  lemma AssessSkips(candidate: Candidate, job: Job)
    ensures Assess(candidate, job).None? <==>
              || job.labels.industry.l1 != candidate.labels.industry.l1
              || job.labels.jobFunction.l1 != candidate.labels.jobFunction.l1
              || !TagFieldsPresent(candidate.labels, job.labels)
  {
    var i := job.labels.industry.Levels();
    var f := job.labels.jobFunction.Levels();
    assert i[0] == job.labels.industry.l1 && f[0] == job.labels.jobFunction.l1;
  }

  /** The baseline: a bucket from the lower four, its `max` plus the tag
      bonus, and "Perfect Match" exactly when that sum exceeds 84, which
      happens for a "Strong Match" with any bonus and for a "Good Match" with
      a bonus of at least 15. */
  lemma AssessBaseline(candidate: Candidate, job: Job)
    requires Assess(candidate, job).Some?
    ensures var a := Assess(candidate, job).value;
            && 1 <= a.finalI.level <= 3 && 1 <= a.finalF.level <= 3
            && a.tableBucket in {TooBasic, IffyMatch, GoodMatch, StrongMatch}
            && a.initial == a.tableBucket.MaxScore() + a.bonus
            && (a.bucket == PerfectMatch <==> a.initial > 84)
            && (a.bucket != PerfectMatch ==> a.bucket == a.tableBucket)
            && (a.bucket == PerfectMatch <==>
                 (a.tableBucket == StrongMatch && a.bonus > 0)
                 || (a.tableBucket == GoodMatch && a.bonus >= 15))
  {
    var a := Assess(candidate, job).value;
    ReachableBuckets(a.finalF, a.finalI);
    assert a.bonus == 0 || 4 <= a.bonus <= 16;
  }

  /** An escalated candidate is kept exactly when the oracle yields a
      non-zero score (and the row has its resume text), and is then scored
      with that value rather than the rule-based one. */
  lemma EscalatedRowTakesOracleScore(row: Row, job: Job, quota: int, oracle: Oracle)
    requires Assess(row.candidate, job).Some?
    requires Escalates(Assess(row.candidate, job).value.adjusted, quota)
    ensures var o := oracle(row.resumeText, Assess(row.candidate, job).value.adjusted);
            && (ScoreRow(row, job, quota, oracle).Some? <==> o.Some? && o.value != 0 && row.resumeText.Some?)
            && (ScoreRow(row, job, quota, oracle).Some? ==> ScoreRow(row, job, quota, oracle).value.score == o.value)
  {
  }

  /** A candidate kept without escalation carries its rule-based score,
      which lies in [0, 70], and only happens when the quota is off. */
  lemma RuleScoredRow(row: Row, job: Job, quota: int, oracle: Oracle)
    requires ScoreRow(row, job, quota, oracle).Some?
    requires !Escalates(Assess(row.candidate, job).value.adjusted, quota)
    ensures quota <= 0
    ensures ScoreRow(row, job, quota, oracle).value.score == Assess(row.candidate, job).value.adjusted
    ensures 0 <= ScoreRow(row, job, quota, oracle).value.score <= 70
  {
  }

  lemma OutcomesExtend(rows: seq<Row>, n: nat, job: Job, quota: int, oracle: Oracle)
    requires n < |rows|
    ensures Outcomes(rows[..n + 1], job, quota, oracle)
         == Outcomes(rows[..n], job, quota, oracle) + [ScoreRow(rows[n], job, quota, oracle)]
  {
    assert rows[..n + 1] == rows[..n] + [rows[n]];
  }

  lemma {:induction false} KeptAppend(outcomes: seq<Option<Scored>>, outcome: Option<Scored>)
    ensures Kept(outcomes + [outcome]) == Kept(outcomes) + (if outcome.Some? then [outcome.value] else [])
  {
    assert (outcomes + [outcome])[..|outcomes|] == outcomes;
  }

  /** Every kept row is the outcome of some row, so no more rows are kept
      than were scored. */
  lemma {:induction false} KeptFromOutcomes(outcomes: seq<Option<Scored>>)
    ensures |Kept(outcomes)| <= |outcomes|
    ensures forall s :: s in Kept(outcomes) ==> Some(s) in outcomes
  {
    if outcomes != [] {
      var init := outcomes[..|outcomes| - 1];
      KeptFromOutcomes(init);
      forall s | s in Kept(outcomes)
        ensures Some(s) in outcomes
      {
        if s in Kept(init) {
          var k :| 0 <= k < |init| && init[k] == Some(s);
          assert outcomes[k] == Some(s);
        }
      }
    }
  }

  /** Nothing is kept exactly when every row was dropped. */
  lemma {:induction false} KeptEmpty(outcomes: seq<Option<Scored>>)
    ensures Kept(outcomes) == [] <==> forall k :: 0 <= k < |outcomes| ==> outcomes[k].None?
  {
    if outcomes != [] {
      var init := outcomes[..|outcomes| - 1];
      KeptEmpty(init);
      assert forall k :: 0 <= k < |init| ==> init[k] == outcomes[k];
    }
  }

  /** The quota: with a positive quota N, at most N rows are kept, and rows
      at index N or later never affect the result. */
  lemma QuotaCutsOff(rows: seq<Row>, extra: seq<Row>, job: Job, quota: int, oracle: Oracle)
    requires 0 < quota <= |rows|
    ensures |ScoreAll(rows, job, quota, oracle)| <= quota
    ensures ScoreAll(rows + extra, job, quota, oracle) == ScoreAll(rows, job, quota, oracle)
  {
    assert (rows + extra)[..quota] == rows[..quota];
    KeptFromOutcomes(Outcomes(rows[..quota], job, quota, oracle));
  }

  // ---------------------------------------------------------------------
  // As written, the escalation calls `determine_final_score` with two
  // arguments while it declares three. The call raises a TypeError, the
  // loop's `except` swallows it, and the candidate is never appended.

  /** The outcome of one row as the code is written: every escalated
      candidate is dropped, whatever the oracle would have said. */
  function ScoreRowAsWritten(row: Row, job: Job, quota: int): Option<Scored> {
    match Assess(row.candidate, job)
    case None => None
    case Some(a) =>
      if Escalates(a.adjusted, quota) then None
      else if row.resumeText.Some? then
        Some(Scored(row.candidate, a.finalI, a.finalF, a.bucket, a.adjusted))
      else None
  }

  function OutcomesAsWritten(rows: seq<Row>, job: Job, quota: int): (r: seq<Option<Scored>>)
    ensures |r| == |rows|
    ensures forall k :: 0 <= k < |rows| ==> r[k] == ScoreRowAsWritten(rows[k], job, quota)
  {
    seq(|rows|, k requires 0 <= k < |rows| => ScoreRowAsWritten(rows[k], job, quota))
  }

  function ScoreAllAsWritten(rows: seq<Row>, job: Job, quota: int): seq<Scored> {
    Kept(OutcomesAsWritten(rows[..Considered(|rows|, quota)], job, quota))
  }

  /** As written, a kept candidate was never escalated: it has a score of at
      most 70 and the quota is off. */
  lemma AsWrittenKeepsOnlyRuleScored(row: Row, job: Job, quota: int)
    requires ScoreRowAsWritten(row, job, quota).Some?
    ensures quota <= 0
    ensures 0 <= ScoreRowAsWritten(row, job, quota).value.score <= 70
  {
  }

  /** As written, a positive quota empties the output: no file is written. */
  lemma AsWrittenQuotaWritesNothing(rows: seq<Row>, job: Job, quota: int)
    requires quota > 0
    ensures ScoreAllAsWritten(rows, job, quota) == []
    ensures SaveScoredCandidates(ScoreAllAsWritten(rows, job, quota), job).None?
  {
    KeptEmpty(OutcomesAsWritten(rows[..Considered(|rows|, quota)], job, quota));
  }

  /** The discrepancy: a candidate that is escalated and that the oracle
      scores is kept by the intended pipeline and dropped as written. */
  lemma AsWrittenDropsOracleScored(row: Row, job: Job, quota: int, oracle: Oracle)
    requires Assess(row.candidate, job).Some?
    requires Escalates(Assess(row.candidate, job).value.adjusted, quota)
    requires oracle(row.resumeText, Assess(row.candidate, job).value.adjusted).Some?
    requires oracle(row.resumeText, Assess(row.candidate, job).value.adjusted).value != 0
    requires row.resumeText.Some?
    ensures ScoreRowAsWritten(row, job, quota).None?
    ensures ScoreRow(row, job, quota, oracle).Some?
  {
  }

  /** Away from the gate the two agree: a row that is not escalated has the
      same outcome either way. */
  lemma AsWrittenAgreesBelowGate(row: Row, job: Job, quota: int, oracle: Oracle)
    requires Assess(row.candidate, job).Some? ==> !Escalates(Assess(row.candidate, job).value.adjusted, quota)
    ensures ScoreRowAsWritten(row, job, quota) == ScoreRow(row, job, quota, oracle)
  {
  }
}
