/** The hierarchical taxonomy matcher (`get_final_matched_level`, nested in
    `determine_bucket`) and the two fixed tables `buckets_table` and
    `scores_table` of score_candidates.py. */
module Taxonomy {
  import opened Wrappers

  /** A controlled-vocabulary label as read from a record: `None` when the
      field is missing. Python compares labels with `==`, so `None == None`
      counts as a match. */
  type Label = Option<string>

  datatype Category = Industry | Function {
    /** The prefix of the label keys and of the matched-level labels. */
    function Prefix(): char {
      if Industry? then 'I' else 'F'
    }
  }

  /** One taxonomy path: the labels of levels 1 to 3 and the level-4 field,
      a comma-separated list of free-form tags (`None` when missing). */
  datatype Path = Path(l1: Label, l2: Label, l3: Label, tags: Option<string>) {
    /** The labels the matcher visits, level 1 first. */
    function Levels(): (ls: seq<Label>)
      ensures |ls| == 3
    {
      [l1, l2, l3]
    }
  }

  /** The taxonomy fields of a candidate or a job: `I1`..`I3`, `i4` and
      `F1`..`F3`, `f4`. */
  datatype Labels = Labels(industry: Path, jobFunction: Path) {
    function Of(c: Category): Path {
      if c.Industry? then industry else jobFunction
    }
  }

  /** A matched-level label such as `"I2"` or `"F0"`. */
  datatype MatchLabel = MatchLabel(category: Category, level: nat) {
    function Name(): string
      requires level <= 9
    {
      [category.Prefix(), ('0' as int + level) as char]
    }
  }

  /** The length of the run of equal labels at the start of two label lists:
      every level before it matches, and the level at it (if any) does not. */
  function EqualRun(a: seq<Label>, b: seq<Label>): (k: nat)
    requires |a| == |b|
    ensures k <= |a|
    ensures forall j :: 0 <= j < k ==> a[j] == b[j]
    ensures k < |a| ==> a[k] != b[k]
  {
    if |a| == 0 || a[0] != b[0] then 0 else 1 + EqualRun(a[1..], b[1..])
  }

  /** The two properties above pin the run length down: no other `k` has
      them. */
  lemma {:induction false} EqualRunUnique(a: seq<Label>, b: seq<Label>, k: nat)
    requires |a| == |b| && k <= |a|
    requires forall j :: 0 <= j < k ==> a[j] == b[j]
    requires k < |a| ==> a[k] != b[k]
    ensures EqualRun(a, b) == k
  {
    if k > 0 {
      assert a[0] == b[0];
      EqualRunUnique(a[1..], b[1..], k - 1);
    }
  }

  /** `get_final_matched_level`: walks levels 1 to 3 and stops at the first
      mismatch. The matched level is the number of leading levels on which
      job and candidate agree; level 4 is never compared. */
  method FinalMatchedLevel(job: Path, candidate: Path, category: Category) returns (r: MatchLabel)
    ensures r.category == category
    ensures r.level == EqualRun(job.Levels(), candidate.Levels())
    ensures r.level <= 3
    ensures job.l1 != candidate.l1 ==> r.level == 0
  {
    var lastMatched := 0;
    var level := 1;
    while level <= 3
      invariant 1 <= level <= 4
      invariant lastMatched == level - 1
      invariant forall j :: 0 <= j < lastMatched ==> job.Levels()[j] == candidate.Levels()[j]
    {
      if job.Levels()[level - 1] == candidate.Levels()[level - 1] {
        lastMatched := level;
      } else {
        break;
      }
      level := level + 1;
    }
    EqualRunUnique(job.Levels(), candidate.Levels(), lastMatched);
    r := MatchLabel(category, lastMatched);
  }

  /** The named match-quality buckets of `scores_table`. */
  datatype Bucket = TooBasic | IffyMatch | GoodMatch | StrongMatch | PerfectMatch | OutOfTheBox {
    function Name(): string {
      match this
      case TooBasic => "Too Basic"
      case IffyMatch => "Iffy Match"
      case GoodMatch => "Good Match"
      case StrongMatch => "Strong Match"
      case PerfectMatch => "Perfect Match"
      case OutOfTheBox => "Out of the box"
    }

    /** The `min` entry of `scores_table`. */
    function MinScore(): (m: int)
      ensures 0 <= m
    {
      match this
      case TooBasic => 0
      case IffyMatch => 31
      case GoodMatch => 51
      case StrongMatch => 71
      case PerfectMatch => 85
      case OutOfTheBox => 60
    }

    /** The `max` entry of `scores_table`: the baseline a candidate starts from. */
    function MaxScore(): (m: int)
      ensures MinScore() <= m <= 100
    {
      match this
      case TooBasic => 30
      case IffyMatch => 50
      case GoodMatch => 70
      case StrongMatch => 84
      case PerfectMatch => 100
      case OutOfTheBox => 75
    }
  }

  /** `buckets_table.get((final_F, final_I), "")`: `None` stands for the
      empty label. The table is keyed by a function label first and an
      industry label second, levels 1 to 4 on both axes. */
  function BucketFor(f: MatchLabel, i: MatchLabel): (b: Option<Bucket>)
    ensures b.Some? <==> f.category == Function && i.category == Industry && 1 <= f.level <= 4 && 1 <= i.level <= 4
    ensures b.Some? ==> b.value.MinScore() <= b.value.MaxScore()
  {
    if f.category != Function || i.category != Industry then None
    else
      match (f.level, i.level)
      case (1, 1) => Some(TooBasic)
      case (1, 2) => Some(IffyMatch)
      case (1, 3) => Some(IffyMatch)
      case (1, 4) => Some(IffyMatch)
      case (2, 1) => Some(IffyMatch)
      case (2, 2) => Some(GoodMatch)
      case (2, 3) => Some(GoodMatch)
      case (2, 4) => Some(OutOfTheBox)
      case (3, 1) => Some(IffyMatch)
      case (3, 2) => Some(GoodMatch)
      case (3, 3) => Some(StrongMatch)
      case (3, 4) => Some(PerfectMatch)
      case (4, 1) => Some(IffyMatch)
      case (4, 2) => Some(GoodMatch)
      case (4, 3) => Some(StrongMatch)
      case (4, 4) => Some(PerfectMatch)
      case _ => None
  }

  /** Because the matcher never goes past level 3, the table rows with a
      level-4 key are unreachable: a matched pair only ever lands in one of the
      four lower buckets, whose baselines are at most 84. */
  lemma ReachableBuckets(f: MatchLabel, i: MatchLabel)
    requires f.category == Function && i.category == Industry
    requires f.level <= 3 && i.level <= 3
    ensures BucketFor(f, i).Some? <==> f.level >= 1 && i.level >= 1
    ensures BucketFor(f, i).Some? ==>
              BucketFor(f, i).value in {TooBasic, IffyMatch, GoodMatch, StrongMatch}
              && BucketFor(f, i).value.MaxScore() <= 84
  {
  }

  /** The five ranked buckets of `scores_table` cut 0..100 into consecutive
      bands, from "Too Basic" up to "Perfect Match"; "Out of the box" is an
      extra band that overlaps "Good Match" and "Strong Match". */
  lemma RankedBands()
    ensures TooBasic.MinScore() == 0 && PerfectMatch.MaxScore() == 100
    ensures TooBasic.MaxScore() + 1 == IffyMatch.MinScore()
    ensures IffyMatch.MaxScore() + 1 == GoodMatch.MinScore()
    ensures GoodMatch.MaxScore() + 1 == StrongMatch.MinScore()
    ensures StrongMatch.MaxScore() + 1 == PerfectMatch.MinScore()
    ensures GoodMatch.MinScore() < OutOfTheBox.MinScore() <= GoodMatch.MaxScore()
    ensures StrongMatch.MinScore() <= OutOfTheBox.MaxScore() < StrongMatch.MaxScore()
  {
  }

  /** Each bucket has its own key in `scores_table`, so looking a bucket up by
      its name finds that bucket's entry. */
  lemma BucketNamesDistinct(a: Bucket, b: Bucket)
    ensures a.Name() == b.Name() <==> a == b
  {
  }

  /** A matched-level label such as `"I2"` names one category and one level,
      so keying `buckets_table` by the label strings is keying it by the
      pair (category, level). */
  lemma MatchLabelNamesDistinct(a: MatchLabel, b: MatchLabel)
    requires a.level <= 9 && b.level <= 9
    ensures a.Name() == b.Name() <==> a == b
  {
    if a.Name() == b.Name() {
      assert a.Name()[0] == b.Name()[0] && a.Name()[1] == b.Name()[1];
    }
  }
}
