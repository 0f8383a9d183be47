# Candidate scoring engine of grow-automatch, in Dafny

This project models the candidate-scoring core of `score_candidates.py`. That file ranks candidate résumés against one job requirement in five steps:

1. **Matching.** Each candidate's industry path (I1–I3) and function path (F1–F3) are compared with the job's, level by level, stopping at the first mismatch.
2. **Bucketing.** The pair of matched levels picks a bucket ("Too Basic" … "Perfect Match") from a fixed table. The bucket's maximum score is the baseline.
3. **Tag bonus.** Points for the overlap of the free-form level-4 tags are added. They are capped at 8 per side, and the bonus is zero unless both sides score. A sum above 84 relabels the candidate "Perfect Match".
4. **Rules.** Penalties for Japanese proficiency and location are subtracted, and the result is floored at 0.
5. **Escalation.** A candidate escalates to an external scoring oracle (a language model) when the adjusted score is at least 71, or when a first-N quota is set. The oracle's free-text reply is turned back into a number by a three-strategy extractor. The kept candidates are sorted by score, highest first, and written to a file named after the job.

Modules:

- `Taxonomy`: the matcher, the bucket table and the score table.
- `Tags`: the tag-overlap points.
- `Rules`: the penalties.
- `ScoreExtraction`: the score extractor and the text branch of `generate_score`.
- `Output`: the stable sort, file-name sanitising and the output file.
- `Pipeline`: the per-row loop with its gate and quota.
- `Text`: the parts of Python's string library the code relies on: `split`, `strip`, `\s`, `\d`, `\w` and `int()`.
- `Records`: the row, job and output records.

The source's loops and step-by-step updates are methods:

- `FinalMatchedLevel`, `AwardPerTag`, `CalculatePoints`, `GetI4AndF4Points`, `ApplyScoringRules`, `ExtractScore`, `AssessCandidate`, `ScoreOneRow` and `ScoreCandidates`.

Each is proved against a specification function, and the properties the source promises are proved about those functions.

The oracle is a parameter: a function from the résumé text and the adjusted score to the "score" entry of its result, or `None`.

Some properties proved here go beyond the source's own comments:

- The level-4 rows of the bucket table are unreachable, because the matcher never looks past level 3. So the tag bonus is what turns a "Strong Match" into a "Perfect Match".
- Two different jobs can share one output file.
- As written, the escalation call fails on every escalated candidate (see Findings).

The model follows the code, including where it may surprise a reader:

- A missing label on both sides counts as a match, because Python's `None == None` is true.
- An empty job tag field is the single tag `""`, not "no tags". It earns 8 only when the candidate also has an empty tag.
- The tag bonus is added whatever the matched levels are.
- The escalation threshold is 71, not 70.

## Model

| member | source | states |
|---|---|---|
| Taxonomy.EqualRun | score_candidates.py:137-146 | the matched level is the length of the run of equal labels at the start: every level before it matches and the level at it does not |
| Taxonomy.EqualRunUnique | score_candidates.py:137-146 | that characterisation determines the matched level uniquely |
| Taxonomy.FinalMatchedLevel | score_candidates.py:125-146 | the loop with its early `break` returns that run length, never more than 3, and 0 when level 1 differs; level 4 is never compared |
| Taxonomy.BucketFor | score_candidates.py:12-29 | a bucket exists exactly for a function label and an industry label both at levels 1–4; every bucket's `min` is at most its `max` |
| Taxonomy.Bucket.MinScore | score_candidates.py:31-56 | every bucket's `min` entry is at least 0 |
| Taxonomy.Bucket.MaxScore | score_candidates.py:31-56 | every bucket's `max` entry, the baseline a candidate starts from, lies between its `min` and 100 |
| Taxonomy.RankedBands | score_candidates.py:31-56 | the five ranked buckets cut 0..100 into consecutive bands, each starting one above the previous `max`; "Out of the box" overlaps "Good Match" and "Strong Match" |
| Taxonomy.BucketNamesDistinct | score_candidates.py:31-56 | no two buckets share a name, so each has its own `scores_table` entry |
| Taxonomy.MatchLabelNamesDistinct | score_candidates.py:137-146 | a matched-level label such as `"I2"` determines its category and level, so the string keys of `buckets_table` identify (category, level) pairs |
| Taxonomy.ReachableBuckets | score_candidates.py:138-150 | with levels of at most 3, a bucket exists iff both levels are at least 1, and it is one of the four lower buckets with a baseline of at most 84 |
| Tags.TagListShape | score_candidates.py:199-202 | a tag field gives one tag more than it has commas; no tag holds a comma, and none starts or ends with whitespace |
| Tags.UniqueTagsBound | score_candidates.py:162-163 | there are never more unique tags than list entries |
| Tags.RepeatedTagIgnored | score_candidates.py:162-163 | appending a tag the list already holds leaves the unique tags unchanged |
| Tags.TagPoints | score_candidates.py:160-192 | a field earns at most 8 points and never exactly 1; no job tags earns 8; it earns 0 exactly when the job has tags and the candidate has none of them |
| Tags.OneJobTag | score_candidates.py:172-174 | with one job tag the field earns 8 if the candidate has it, else 0 |
| Tags.AwardedIsProduct | score_candidates.py:176-189 | adding the share once per matched tag gives share × matches |
| Tags.TagPointsMonotone | score_candidates.py:176-192 | a candidate with more tags never earns fewer points |
| Tags.DuplicateJobTagIgnored | score_candidates.py:161-163 | repeating a job tag does not change the points |
| Tags.EmptyJobFieldIsOneEmptyTag | score_candidates.py:168-170 | an empty job field is the one tag `""`, so it earns 8 only when the candidate has an empty tag |
| Tags.JobTagsNeverEmpty | score_candidates.py:199-202 | a parsed job field always has at least one unique tag, so the no-job-tags branch cannot be reached from `get_I4_and_F4_points` |
| Tags.AwardPerTag | score_candidates.py:176-189 | the loop over the unique job tags adds the share once per tag the candidate has |
| Tags.CalculatePoints | score_candidates.py:160-192 | `_calculate_points` returns the points of the field for the unique tags of both lists |
| Tags.TagBonus | score_candidates.py:204-211 | the combined bonus is 0 or between 4 and 16 |
| Tags.TagBonusBothSides | score_candidates.py:207-211 | the bonus is 0 exactly when one side earns 0, and is the sum of both sides otherwise |
| Tags.GetI4AndF4Points | score_candidates.py:194-211 | a result exists exactly when all four tag fields are present (otherwise `.split` raises), and it is the combined bonus |
| Rules.AdjustedScore | score_candidates.py:214-237 | the adjusted score is never negative, never above a non-negative input, at most 80 below the input, and when positive equals the input minus both penalties |
| Rules.AdjustedScoreMonotone | score_candidates.py:214-237 | a higher score before the rules never gives a lower score after them |
| Rules.NoJapaneseAbroad | score_candidates.py:225-233 | "None/Unknown" Japanese outside Japan costs 80 points, floored at 0 |
| Rules.ApplyScoringRules | score_candidates.py:214-237 | the step-by-step subtraction computes the adjusted score |
| Text.Split | score_candidates.py:199 | `split(",")` gives at least one piece and no piece contains the separator |
| Text.SplitCount | score_candidates.py:199 | `split(",")` gives one piece more than there are commas |
| Text.JoinSplit | score_candidates.py:199 | joining the pieces with the separator gives the string back |
| Text.SplitJoin | score_candidates.py:199 | splitting a join of separator-free pieces gives the pieces back |
| Text.Strip | score_candidates.py:199 | `strip()` gives the contiguous slice left after removing leading and trailing whitespace, and neither end of the result is whitespace |
| Text.DigitsValue | score_candidates.py:331 | `int()` of n digits is below 10^n |
| ScoreExtraction.MatchTokens | score_candidates.py:320-326 | a phrase pattern that matches ends within the text and captures only digits |
| ScoreExtraction.FindFrom | score_candidates.py:329 | `re.search` finds the leftmost position where the pattern matches, and none when it matches nowhere |
| ScoreExtraction.FirstMatching | score_candidates.py:328-331 | the patterns are tried in list order: every pattern before the chosen one fails and the chosen one matches |
| ScoreExtraction.FirstMatchingIs | score_candidates.py:328-331 | the first matching pattern is the one that matches after a run of failures |
| ScoreExtraction.FallbackPosition | score_candidates.py:334-335 | the fallback is taken at its leftmost match |
| ScoreExtraction.FallbackValueAt | score_candidates.py:334-337 | the fallback captures one to three digits, so its value is at most 999 |
| ScoreExtraction.Fallback | score_candidates.py:333-337 | the fallback's value is at most 999 |
| ScoreExtraction.ExtractedPrecedence | score_candidates.py:300-340 | the JSON block wins; otherwise the first phrase pattern in list order; otherwise the leftmost fallback (at most 999); failure exactly when no strategy matches anywhere |
| ScoreExtraction.LeadingScoreMatch | score_candidates.py:321 | the first phrase pattern captures 82 from "Score: 82", ignoring case |
| ScoreExtraction.LeadingScoreIsPhrase | score_candidates.py:319-331 | the extractor returns 82 for "Score: 82" |
| ScoreExtraction.ExtractScore | score_candidates.py:300-340 | the method with early returns computes the extractor's result |
| ScoreExtraction.GenerateScore | score_candidates.py:286-297 | no answer gives no score; a tool call yields its "score" argument; a textual reply yields a score exactly when the extractor recovers a non-zero one, and then that score (a recovered 0 counts as failure) |
| Output.InsertSorted | score_candidates.py:383-385 | inserting into a list sorted by descending score keeps it sorted |
| Output.SortByScore | score_candidates.py:383-385 | the sort returns a permutation of its input in non-increasing score order |
| Output.SortByScoreStable | score_candidates.py:383-385 | the sort is stable: rows with equal scores keep their order |
| Output.SanitizeFilename | score_candidates.py:395-396 | the length is unchanged; each character outside `[\w\-]` becomes `_` and the others stay |
| Output.SanitizeFilenameIdempotent | score_candidates.py:395-396 | sanitising twice is sanitising once, and the result contains no `/` and no `.` |
| Output.OutputPathsCanCollide | score_candidates.py:379-382 | the jobs ("A B", "C") and ("A_B", "C") are written to the same file |
| Output.SaveScoredCandidates | score_candidates.py:376-392 | no file is written exactly when no row was kept; otherwise the file at the job's path holds a stable, non-increasing permutation of the kept rows |
| Pipeline.AssessCandidate | score_candidates.py:72-87 | the loop body up to the gate computes the matched labels, the bucket, the baseline plus bonus, the "Perfect Match" relabelling and the adjusted score, or stops where the source `continue`s or raises |
| Pipeline.ScoreOneRow | score_candidates.py:69-98 | the loop body computes the row's outcome under the escalation gate |
| Pipeline.ScoreCandidates | score_candidates.py:59-102 | the loop with its quota `break` saves exactly the kept rows of the considered prefix, in row order |
| Pipeline.AssessSkips | score_candidates.py:72-81 | a candidate is skipped before the gate exactly when its level-1 industry or function label differs from the job's, or a tag field is missing |
| Pipeline.AssessBaseline | score_candidates.py:80-84 | the baseline is a lower bucket's `max` plus the bonus; "Perfect Match" holds exactly when that exceeds 84, i.e. for a "Strong Match" with any bonus or a "Good Match" with a bonus of at least 15 |
| Pipeline.EscalatedRowTakesOracleScore | score_candidates.py:89-95 | an escalated candidate is kept exactly when the oracle yields a non-zero score, and then carries that score |
| Pipeline.RuleScoredRow | score_candidates.py:89-98 | a candidate kept without escalation carries its rule-based score, which lies in [0, 70], and the quota is off |
| Pipeline.KeptFromOutcomes | score_candidates.py:98 | every kept row is some row's outcome, and no more rows are kept than scored |
| Pipeline.KeptEmpty | score_candidates.py:98 | nothing is kept exactly when every row was dropped |
| Pipeline.QuotaCutsOff | score_candidates.py:66-68 | with a positive quota N, at most N rows are kept and rows from index N on never affect the result |
| Pipeline.AsWrittenKeepsOnlyRuleScored | score_candidates.py:89-92 | as written, a kept candidate was never escalated: its score is at most 70 and the quota is off |
| Pipeline.AsWrittenQuotaWritesNothing | score_candidates.py:89-92 | as written, a positive quota empties the output and no file is written |
| Pipeline.AsWrittenDropsOracleScored | score_candidates.py:89-92 | an escalated candidate that the oracle scores is kept as intended and dropped as written |
| Pipeline.AsWrittenAgreesBelowGate | score_candidates.py:89-98 | for a row that is not escalated, the code as written and as intended agree |

## Left out

- Reading the CSV with pandas and writing the output CSV are not modelled.
  - Rows are a sequence of records.
  - The output file is a value holding its path and its rows.
  - `os.makedirs` and the column order of the CSV are not modelled.
- A missing cell is `None` in the model.
  - pandas reads a missing cell as NaN, which equals nothing.
  - So the model's "missing on both sides matches" applies to the `None` values a record can hold, not to NaN cells.
- The oracle is a parameter.
  - `determine_final_score` builds a prompt and calls the OpenAI API in openai_api.py, which is not part of this model.
  - `GenerateScore` models how a reply becomes a score. The tool-call branch's JSON arguments are given as the already-parsed "score" entry.
- `_extract_score_from_json` (the JSON-code-block strategy) is an input to the extractor. JSON parsing is not modelled.
- Some regular-expression classes are restricted to ASCII: `\d`, `\w` and the `re.IGNORECASE` case folding. `\s` and `strip()` use Python's full whitespace set.
- Scores are integers. A floating-point score from the oracle's tool call is not modelled.
- `config.candidates_to_score` is an integer parameter.
  - When that setting is `None`, `config.candidates_to_score > 0` raises for every candidate below 71. That case is not modelled.
  - The row index is taken to be the row's position, as with pandas' default index.
- The `print` calls and the error message at the loop's `except` are not modelled.
- `sanitize_filename` of a missing company or position raises outside the loop's `try` and ends the run. The model takes both as strings.
- The other files of the repository are not part of this model: résumé and job-description processing, the PDF parser and the UI.

## Findings

| source | as written | input that shows it | evidently intended | confidence | as-written member | corrected member |
|---|---|---|---|---|---|---|
| score_candidates.py:90-92 | `determine_final_score(resume_text, score)` passes two arguments to a function declared with three (`resume_text, job_data, base_score`, :240). The `TypeError` is caught at :99, so every escalated candidate is silently dropped. | any candidate whose adjusted score is at least 71, e.g. a "Strong Match" (84) with any tag bonus, Native Japanese, living in Japan; or any candidate at all when the quota is positive | pass the job as well (`determine_final_score(resume_text, job_data, score)`), so an escalated candidate takes the oracle's non-zero score | high (not executed) | Pipeline.ScoreRowAsWritten, with Pipeline.AsWrittenQuotaWritesNothing and Pipeline.AsWrittenDropsOracleScored | Pipeline.ScoreRow, with Pipeline.EscalatedRowTakesOracleScore (used by Pipeline.ScoreCandidates) |
