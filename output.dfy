/** `save_scored_candidates` and `sanitize_filename` of score_candidates.py:
    the descending, stable ordering of the scored rows and the name of the
    file they are written to. */
module Output {
  import opened Wrappers
  import opened Text
  import opened Taxonomy
  import opened Records

  /** Scores never increase along `s`. */
  predicate NonIncreasing(s: seq<Scored>) {
    forall j, k :: 0 <= j < k < |s| ==> s[j].score >= s[k].score
  }

  /** The rows of `s` whose score is `v`, in the order of `s`. */
  function WithScore(s: seq<Scored>, v: int): seq<Scored> {
    if s == [] then []
    else (if s[0].score == v then [s[0]] else []) + WithScore(s[1..], v)
  }

  /** Places `x` before the first row whose score is not above its own. */
  function Insert(x: Scored, t: seq<Scored>): (r: seq<Scored>)
    ensures |r| == |t| + 1
    ensures multiset(r) == multiset(t) + multiset{x}
    ensures forall y :: y in r ==> y == x || y in t
  {
    if t == [] || t[0].score <= x.score then [x] + t
    else
      assert t == [t[0]] + t[1..];
      [t[0]] + Insert(x, t[1..])
  }

  lemma {:induction false} InsertSorted(x: Scored, t: seq<Scored>)
    requires NonIncreasing(t)
    ensures NonIncreasing(Insert(x, t))
  {
    if t != [] && t[0].score > x.score {
      var tail := t[1..];
      InsertSorted(x, tail);
      var r := Insert(x, t);
      assert r == [t[0]] + Insert(x, tail);
      forall k | 0 < k < |r|
        ensures t[0].score >= r[k].score
      {
        assert r[k] in Insert(x, tail);
        if r[k] != x {
          assert r[k] in tail;
          var i :| 0 <= i < |tail| && tail[i] == r[k];
          assert t[i + 1] == r[k];
        }
      }
    }
  }

  /** `sorted(rows, key=score, reverse=True)`: the same rows, by
      non-increasing score. */
  function SortByScore(s: seq<Scored>): (r: seq<Scored>)
    ensures |r| == |s|
    ensures multiset(r) == multiset(s)
    ensures NonIncreasing(r)
  {
    if s == [] then []
    else
      assert s == [s[0]] + s[1..];
      InsertSorted(s[0], SortByScore(s[1..]));
      Insert(s[0], SortByScore(s[1..]))
  }

  lemma {:induction false} WithScoreCons(x: Scored, t: seq<Scored>, v: int)
    ensures WithScore([x] + t, v) == (if x.score == v then [x] else []) + WithScore(t, v)
  {
    assert ([x] + t)[1..] == t;
  }

  lemma {:induction false} InsertStable(x: Scored, t: seq<Scored>, v: int)
    requires NonIncreasing(t)
    ensures WithScore(Insert(x, t), v) == WithScore([x] + t, v)
  {
    if t != [] && t[0].score > x.score {
      var tail := t[1..];
      assert NonIncreasing(tail);
      // `x` and `t[0]` have different scores, so at most one of them is kept.
      var keptHead := if t[0].score == v then [t[0]] else [];
      var keptX := if x.score == v then [x] else [];
      assert keptHead + keptX == keptX + keptHead;
      calc {
        WithScore(Insert(x, t), v);
        { assert Insert(x, t) == [t[0]] + Insert(x, tail);
          WithScoreCons(t[0], Insert(x, tail), v); }
        keptHead + WithScore(Insert(x, tail), v);
        { InsertStable(x, tail, v); WithScoreCons(x, tail, v); }
        keptHead + (keptX + WithScore(tail, v));
        keptX + (keptHead + WithScore(tail, v));
        { assert t == [t[0]] + tail; WithScoreCons(t[0], tail, v); }
        keptX + WithScore(t, v);
        { WithScoreCons(x, t, v); }
        WithScore([x] + t, v);
      }
    }
  }

  /** The sort is stable: for every score, the rows with that score come out
      in the order they went in. */
  lemma {:induction false} SortByScoreStable(s: seq<Scored>, v: int)
    ensures WithScore(SortByScore(s), v) == WithScore(s, v)
  {
    if s != [] {
      SortByScoreStable(s[1..], v);
      InsertStable(s[0], SortByScore(s[1..]), v);
      WithScoreCons(s[0], SortByScore(s[1..]), v);
      WithScoreCons(s[0], s[1..], v);
      assert s == [s[0]] + s[1..];
    }
  }

  /** The characters `[\w\-]` that `sanitize_filename` keeps. */
  predicate AllowedInFileName(c: char) {
    IsWordChar(c) || c == '-'
  }

  /** `re.sub(r"[^\w\-]", "_", name)`: every character outside the allowed
      set becomes `_`, the others stay, and the length is unchanged. */
  function SanitizeFilename(name: string): (r: string)
    ensures |r| == |name|
    ensures forall k :: 0 <= k < |name| ==> r[k] == (if AllowedInFileName(name[k]) then name[k] else '_')
  {
    if name == [] then []
    else [if AllowedInFileName(name[0]) then name[0] else '_'] + SanitizeFilename(name[1..])
  }

  /** Sanitizing twice is sanitizing once, and the result holds only allowed
      characters (in particular no `/` and no `.`). */
  lemma SanitizeFilenameIdempotent(name: string)
    ensures SanitizeFilename(SanitizeFilename(name)) == SanitizeFilename(name)
    ensures forall k :: 0 <= k < |name| ==> AllowedInFileName(SanitizeFilename(name)[k])
    ensures '/' !in SanitizeFilename(name) && '.' !in SanitizeFilename(name)
  {
  }

  const OutputDir := "output/scored_candidates"

  /** The path the scored rows of a job are written to. */
  function OutputPath(job: Job): string {
    OutputDir + "/" + SanitizeFilename(job.company) + "_" + SanitizeFilename(job.position)
      + "_scored_candidates.csv"
  }

  /** Two different jobs can share an output file, the later pass
      overwriting the earlier one. */
  lemma OutputPathsCanCollide(labels: Labels)
    ensures OutputPath(Job("A B", "C", labels)) == OutputPath(Job("A_B", "C", labels))
  {
    assert SanitizeFilename("A B") == "A_B";
    assert SanitizeFilename("A_B") == "A_B";
  }

  /** The file a scoring pass writes: its path and its rows in order. */
  datatype OutputFile = OutputFile(path: string, rows: seq<Scored>)

  /** `save_scored_candidates`: sorts the rows and writes them, or writes
      nothing when there are none. */
  function SaveScoredCandidates(scored: seq<Scored>, job: Job): (r: Option<OutputFile>)
    ensures r.None? <==> scored == []
    ensures r.Some? ==> r.value.path == OutputPath(job)
                        && multiset(r.value.rows) == multiset(scored)
                        && NonIncreasing(r.value.rows)
                        && forall v :: WithScore(r.value.rows, v) == WithScore(scored, v)
  {
    if scored == [] then None
    else
      var rows := SortByScore(scored);
      assert forall v :: WithScore(rows, v) == WithScore(scored, v) by {
        forall v ensures WithScore(rows, v) == WithScore(scored, v) {
          SortByScoreStable(scored, v);
        }
      }
      Some(OutputFile(OutputPath(job), rows))
  }
}
