/** The records the scoring engine reads and writes: one CSV row per
    candidate, the job it is scored against, and the scored row it appends
    to the output. */
module Records {
  import opened Wrappers
  import opened Taxonomy

  /** The fields of a candidate row the engine reads (besides the resume
      text); `None` is a missing cell. */
  datatype Candidate = Candidate(
    name: Option<string>,
    labels: Labels,
    japaneseLevel: Option<string>,
    country: Option<string>)

  /** A row of the processed-resumes table. `resumeText` is `None` when the
      table has no `resume_text` column. */
  datatype Row = Row(candidate: Candidate, resumeText: Option<string>)

  /** The job requirement a scoring pass is run against. */
  datatype Job = Job(company: string, position: string, labels: Labels)

  /** A row of the output: the candidate's fields with `final_I`, `final_F`,
      `bucket` and `score` attached and the resume text removed. */
  datatype Scored = Scored(
    candidate: Candidate,
    finalI: MatchLabel,
    finalF: MatchLabel,
    bucket: Bucket,
    score: int)
}
