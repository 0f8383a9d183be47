/** The level-4 tag-overlap points: `get_I4_and_F4_points` and its helper
    `_calculate_points` of score_candidates.py. */
module Tags {
  import opened Wrappers
  import opened Text
  import opened Taxonomy

  /** `[keyword.strip() for keyword in field.split(",")]`. */
  function TagList(field: string): (tags: seq<string>)
    ensures |tags| == |Split(field, ',')| >= 1
    ensures forall k :: 0 <= k < |tags| ==> tags[k] == Strip(Split(field, ',')[k])
  {
    var parts := Split(field, ',');
    seq(|parts|, k requires 0 <= k < |parts| => Strip(parts[k]))
  }

  /** A tag field gives one tag more than it has commas, and no tag holds a
      comma or starts or ends with whitespace. */
  lemma TagListShape(field: string)
    ensures |TagList(field)| == multiset(field)[','] + 1
    ensures forall k :: 0 <= k < |TagList(field)| ==>
              && ',' !in TagList(field)[k]
              && (TagList(field)[k] == []
                  || (!IsSpace(TagList(field)[k][0]) && !IsSpace(TagList(field)[k][|TagList(field)[k]| - 1])))
  {
    SplitCount(field, ',');
    var tags := TagList(field);
    forall k | 0 <= k < |tags|
      ensures ',' !in tags[k]
      ensures tags[k] == [] || (!IsSpace(tags[k][0]) && !IsSpace(tags[k][|tags[k]| - 1]))
    {
      var part := Split(field, ',')[k];
      assert tags[k] == Strip(part);
      assert tags[k] == part[LeadingSpaces(part)..LeadingSpaces(part) + |tags[k]|];
    }
  }

  /** `set(tags)`. */
  function SetOf(tags: seq<string>): (s: set<string>)
    ensures forall t :: t in s <==> t in tags
  {
    set t | t in tags
  }

  /** There are never more unique tags than list entries. */
  lemma {:induction false} UniqueTagsBound(tags: seq<string>)
    ensures |SetOf(tags)| <= |tags|
  {
    if tags != [] {
      var init := tags[..|tags| - 1];
      UniqueTagsBound(init);
      assert tags == init + [tags[|tags| - 1]];
      assert SetOf(tags) == SetOf(init) + {tags[|tags| - 1]};
    }
  }

  /** Appending a tag the list already holds leaves the unique tags as they
      were. */
  lemma RepeatedTagIgnored(tags: seq<string>, k: nat)
    requires k < |tags|
    ensures SetOf(tags + [tags[k]]) == SetOf(tags)
  {
  }

  /** Points a present job tag is worth, by the number of unique job tags. */
  function PerTagPoints(jobTagCount: nat): nat {
    if jobTagCount == 1 then 8
    else if jobTagCount == 2 then 4
    else if jobTagCount == 3 then 3
    else 2
  }

  /** What `matches` job tags earn at `share` points each, added one tag at a
      time. */
  function Awarded(share: nat, matches: nat): nat {
    if matches == 0 then 0 else Awarded(share, matches - 1) + share
  }

  lemma {:induction false} AwardedIsProduct(share: nat, matches: nat)
    ensures Awarded(share, matches) == share * matches
  {
    if matches > 0 {
      AwardedIsProduct(share, matches - 1);
      assert share * matches == share * (matches - 1) + share;
    }
  }

  lemma {:induction false} AwardedMonotone(share: nat, fewer: nat, more: nat)
    requires fewer <= more
    ensures Awarded(share, fewer) <= Awarded(share, more)
  {
    if fewer < more {
      AwardedMonotone(share, fewer, more - 1);
    }
  }

  /** The points of one tag field: full marks when the job names no tags;
      otherwise each job tag the candidate also has earns the per-tag share
      for the number of job tags, and the sum is capped at 8. */
  function TagPoints(candidateTags: set<string>, jobTags: set<string>): (r: nat)
    ensures r <= 8
    ensures r == 0 || r >= 2
    ensures |jobTags| == 0 ==> r == 8
    ensures r == 0 <==> (|jobTags| > 0 && jobTags * candidateTags == {})
  {
    if |jobTags| == 0 then 8
    else Min(Awarded(PerTagPoints(|jobTags|), |jobTags * candidateTags|), 8)
  }

  /** With exactly one job tag, the field earns 8 when the candidate has it
      and 0 otherwise. */
  lemma OneJobTag(candidateTags: set<string>, tag: string)
    ensures TagPoints(candidateTags, {tag}) == (if tag in candidateTags then 8 else 0)
  {
    if tag in candidateTags {
      assert {tag} * candidateTags == {tag};
    } else {
      assert {tag} * candidateTags == {};
    }
  }

  lemma SubsetCardinality(a: set<string>, b: set<string>)
    requires a <= b
    ensures |a| <= |b|
  {
    assert b == a + (b - a);
  }

  /** A candidate with more tags never earns fewer points. */
  lemma TagPointsMonotone(fewer: set<string>, more: set<string>, jobTags: set<string>)
    requires fewer <= more
    ensures TagPoints(fewer, jobTags) <= TagPoints(more, jobTags)
  {
    SubsetCardinality(jobTags * fewer, jobTags * more);
    AwardedMonotone(PerTagPoints(|jobTags|), |jobTags * fewer|, |jobTags * more|);
  }

  /** Repeating a job tag changes nothing: the count of unique tags decides. */
  lemma DuplicateJobTagIgnored(candidateTags: seq<string>, jobTags: seq<string>, k: nat)
    requires k < |jobTags|
    ensures TagPoints(SetOf(candidateTags), SetOf(jobTags + [jobTags[k]]))
         == TagPoints(SetOf(candidateTags), SetOf(jobTags))
  {
    RepeatedTagIgnored(jobTags, k);
  }

  /** A tag field always splits into at least one tag, so the no-job-tags
      branch is unreachable from `get_I4_and_F4_points`; an empty job field is
      the single empty tag, which earns 8 only when the candidate has an
      empty tag too. */
  lemma EmptyJobFieldIsOneEmptyTag(candidateField: string)
    ensures SetOf(TagList("")) == {""}
    ensures TagPoints(SetOf(TagList(candidateField)), SetOf(TagList("")))
         == (if "" in TagList(candidateField) then 8 else 0)
  {
    assert Split("", ',') == [""];
    assert TagList("") == [""];
    assert SetOf(TagList("")) == {""};
    OneJobTag(SetOf(TagList(candidateField)), "");
  }

  lemma JobTagsNeverEmpty(field: string)
    ensures |SetOf(TagList(field))| >= 1
  {
    var tags := TagList(field);
    assert tags[0] in SetOf(tags);
  }

  lemma SingletonSet(s: set<string>, x: string)
    requires |s| == 1 && x in s
    ensures s == {x}
  {
    assert |s - {x}| == 0;
  }

  /** Visiting one more job tag adds one to the overlap exactly when the
      candidate has that tag. */
  lemma OverlapStep(visited: set<string>, candidateTags: set<string>, tag: string)
    requires tag !in visited
    ensures |(visited + {tag}) * candidateTags| == |visited * candidateTags| + (if tag in candidateTags then 1 else 0)
  {
    if tag in candidateTags {
      assert (visited + {tag}) * candidateTags == visited * candidateTags + {tag};
    } else {
      assert (visited + {tag}) * candidateTags == visited * candidateTags;
    }
  }

  /** The loop shared by the 2-, 3- and more-tag branches: every job tag the
      candidate also has adds `share`. */
  method AwardPerTag(candidateTags: set<string>, jobTags: set<string>, share: nat) returns (points: nat)
    ensures points == Awarded(share, |jobTags * candidateTags|)
  {
    points := 0;
    var remaining := jobTags;
    ghost var visited: set<string> := {};
    assert visited * candidateTags == {};
    while remaining != {}
      invariant visited + remaining == jobTags
      invariant visited !! remaining
      invariant points == Awarded(share, |visited * candidateTags|)
      decreases |remaining|
    {
      var tag :| tag in remaining;
      OverlapStep(visited, candidateTags, tag);
      if tag in candidateTags {
        points := points + share;
      }
      remaining := remaining - {tag};
      visited := visited + {tag};
    }
    assert visited == jobTags;
  }

  /** `_calculate_points`: the points of one tag field, from the candidate's
      and the job's tag lists. */
  method CalculatePoints(candidateTags: seq<string>, jobTags: seq<string>) returns (points: nat)
    ensures points == TagPoints(SetOf(candidateTags), SetOf(jobTags))
  {
    var uniqueCandidateTags := SetOf(candidateTags);
    var uniqueJobTags := SetOf(jobTags);
    var jobTagsCount := |uniqueJobTags|;
    points := 0;
    if jobTagsCount == 0 {
      points := 8;
    } else if jobTagsCount == 1 {
      var tag :| tag in uniqueJobTags;
      SingletonSet(uniqueJobTags, tag);
      OneJobTag(uniqueCandidateTags, tag);
      if tag in uniqueCandidateTags {
        points := 8;
      }
    } else if jobTagsCount == 2 {
      points := AwardPerTag(uniqueCandidateTags, uniqueJobTags, 4);
    } else if jobTagsCount == 3 {
      points := AwardPerTag(uniqueCandidateTags, uniqueJobTags, 3);
    } else {
      points := AwardPerTag(uniqueCandidateTags, uniqueJobTags, 2);
    }
    points := Min(points, 8);
  }

  /** The points of one field, from the raw comma-separated fields. */
  function FieldPoints(candidateField: string, jobField: string): nat {
    TagPoints(SetOf(TagList(candidateField)), SetOf(TagList(jobField)))
  }

  /** All four tag fields are present; `.split` on a missing one raises, and
      the candidate is skipped. */
  predicate TagFieldsPresent(candidate: Labels, job: Labels) {
    && candidate.industry.tags.Some? && candidate.jobFunction.tags.Some?
    && job.industry.tags.Some? && job.jobFunction.tags.Some?
  }

  /** The combined level-4 bonus: zero unless both fields score, else their
      sum. */
  function TagBonus(candidate: Labels, job: Labels): (r: nat)
    requires TagFieldsPresent(candidate, job)
    ensures r == 0 || 4 <= r <= 16
  {
    var f4 := FieldPoints(candidate.jobFunction.tags.value, job.jobFunction.tags.value);
    var i4 := FieldPoints(candidate.industry.tags.value, job.industry.tags.value);
    if f4 == 0 || i4 == 0 then 0 else f4 + i4
  }

  /** The bonus is zero exactly when one side earns nothing, and is the sum of
      the two sides otherwise. */
  lemma TagBonusBothSides(candidate: Labels, job: Labels)
    requires TagFieldsPresent(candidate, job)
    ensures var f4 := FieldPoints(candidate.jobFunction.tags.value, job.jobFunction.tags.value);
            var i4 := FieldPoints(candidate.industry.tags.value, job.industry.tags.value);
            && (TagBonus(candidate, job) == 0 <==> (f4 == 0 || i4 == 0))
            && (TagBonus(candidate, job) > 0 ==> TagBonus(candidate, job) == f4 + i4)
  {
  }

  /** `get_I4_and_F4_points`: `None` stands for the exception a missing tag
      field raises. */
  method GetI4AndF4Points(candidate: Labels, job: Labels) returns (r: Option<nat>)
    ensures r.Some? <==> TagFieldsPresent(candidate, job)
    ensures r.Some? ==> r.value == TagBonus(candidate, job)
  {
    match (candidate.jobFunction.tags, candidate.industry.tags, job.jobFunction.tags, job.industry.tags)
    case (Some(candidateF4), Some(candidateI4), Some(jobF4), Some(jobI4)) =>
      var f4Points := CalculatePoints(TagList(candidateF4), TagList(jobF4));
      var i4Points := CalculatePoints(TagList(candidateI4), TagList(jobI4));
      if f4Points == 0 || i4Points == 0 {
        r := Some(0);
      } else {
        r := Some(f4Points + i4Points);
      }
    case _ =>
      // `.split` on a missing field raises.
      r := None;
  }
}
