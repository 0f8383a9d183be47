/** Free-text score recovery: `extract_score` and the text branch of
    `generate_score` in score_candidates.py. The regular expressions are
    written out as hand-made matchers over the reply text. */
module ScoreExtraction {
  import opened Wrappers
  import opened Text

  /** `w` (lower case) occurs at position `i` of `text`, ignoring case. */
  predicate WordAt(text: string, i: nat, w: string) {
    i + |w| <= |text| && forall k :: 0 <= k < |w| ==> Lower(text[i + k]) == w[k]
  }

  /** The end of the run of whitespace that starts at `i` (`\s*`, greedy). */
  function SkipSpaces(text: string, i: nat): (j: nat)
    requires i <= |text|
    ensures i <= j <= |text|
    ensures forall k :: i <= k < j ==> IsSpace(text[k])
    ensures j == |text| || !IsSpace(text[j])
    decreases |text| - i
  {
    if i < |text| && IsSpace(text[i]) then SkipSpaces(text, i + 1) else i
  }

  /** The end of the run of digits that starts at `i` (`\d+`/`\d*`, greedy). */
  function DigitsEnd(text: string, i: nat): (j: nat)
    requires i <= |text|
    ensures i <= j <= |text|
    ensures forall k :: i <= k < j ==> IsDigit(text[k])
    ensures j == |text| || !IsDigit(text[j])
    decreases |text| - i
  {
    if i < |text| && IsDigit(text[i]) then DigitsEnd(text, i + 1) else i
  }

  /** One element of a phrase pattern. */
  datatype Token =
    | Word(w: string)              // literal text, matched ignoring case
    | Spaces                       // \s*
    | OneOf(a: string, b: string)  // (?:a|b)
    | Number                       // (\d+), the captured group

  type Pattern = seq<Token>

  /** The five phrase patterns of strategy 2, in the order they are tried:
      `score\s*(?:of|:)\s*(\d+)`, `score\s*is\s*(\d+)`, `score\s*=\s*(\d+)`,
      `"score"\s*:\s*(\d+)` and `score\s*\(\s*(\d+)\s*\)`. */
  const PhrasePatterns: seq<Pattern> := [
    [Word("score"), Spaces, OneOf("of", ":"), Spaces, Number],
    [Word("score"), Spaces, Word("is"), Spaces, Number],
    [Word("score"), Spaces, Word("="), Spaces, Number],
    [Word("\"score\""), Spaces, Word(":"), Spaces, Number],
    [Word("score"), Spaces, Word("("), Spaces, Number, Spaces, Word(")")]
  ]

  /** Matches the tokens `p` at position `i`, giving the end of the match and
      the digits captured so far. Greedy matching without backtracking gives
      the same result as the regular-expression engine for these patterns:
      no token after a `\s*` starts with whitespace, no token after a `\d+`
      starts with a digit, and the two alternatives start differently. */
  function MatchTokens(p: Pattern, text: string, i: nat, digits: string): (m: Option<(nat, string)>)
    requires i <= |text| && AllDigits(digits)
    ensures m.Some? ==> i <= m.value.0 <= |text| && AllDigits(m.value.1)
    decreases |p|
  {
    if p == [] then Some((i, digits))
    else
      match p[0]
      case Word(w) =>
        if WordAt(text, i, w) then MatchTokens(p[1..], text, i + |w|, digits) else None
      case Spaces =>
        MatchTokens(p[1..], text, SkipSpaces(text, i), digits)
      case OneOf(a, b) =>
        if WordAt(text, i, a) then MatchTokens(p[1..], text, i + |a|, digits)
        else if WordAt(text, i, b) then MatchTokens(p[1..], text, i + |b|, digits)
        else None
      case Number =>
        var j := DigitsEnd(text, i);
        if j == i then None else MatchTokens(p[1..], text, j, text[i..j])
  }

  /** The leftmost position at or after `i` where `p` matches (`re.search`). */
  function FindFrom(p: Pattern, text: string, i: nat): (r: Option<nat>)
    requires i <= |text|
    ensures r.Some? ==> i <= r.value <= |text| && MatchTokens(p, text, r.value, "").Some?
    ensures r.Some? ==> forall k :: i <= k < r.value ==> MatchTokens(p, text, k, "").None?
    ensures r.None? ==> forall k :: i <= k <= |text| ==> MatchTokens(p, text, k, "").None?
    decreases |text| - i
  {
    if MatchTokens(p, text, i, "").Some? then Some(i)
    else if i == |text| then None
    else FindFrom(p, text, i + 1)
  }

  /** `int(match.group(1))` for the leftmost match of `p`, if any. */
  function Search(p: Pattern, text: string): Option<nat> {
    match FindFrom(p, text, 0)
    case None => None
    case Some(k) => Some(DigitsValue(MatchTokens(p, text, k, "").value.1))
  }

  /** The index of the first pattern of `patterns` that matches somewhere in
      `text`, or `|patterns|` when none does. */
  function FirstMatching(patterns: seq<Pattern>, text: string): (j: nat)
    ensures j <= |patterns|
    ensures forall m :: 0 <= m < j ==> Search(patterns[m], text).None?
    ensures j < |patterns| ==> Search(patterns[j], text).Some?
  {
    if patterns == [] then 0
    else if Search(patterns[0], text).Some? then 0
    else 1 + FirstMatching(patterns[1..], text)
  }

  /** The first matching pattern is the one that matches after a run of
      patterns that do not. */
  lemma FirstMatchingIs(patterns: seq<Pattern>, text: string, k: nat)
    requires k <= |patterns|
    requires forall m :: 0 <= m < k ==> Search(patterns[m], text).None?
    requires k < |patterns| ==> Search(patterns[k], text).Some?
    ensures FirstMatching(patterns, text) == k
  {
  }

  /** Strategy 2: the score captured by the first phrase pattern, in list
      order, that matches anywhere. */
  function PhraseScore(text: string): Option<nat> {
    var j := FirstMatching(PhrasePatterns, text);
    if j < |PhrasePatterns| then Search(PhrasePatterns[j], text) else None
  }

  /** Where the line that holds position `j` ends: the next `\n`, or the end. */
  function LineEnd(text: string, j: nat): (e: nat)
    requires j <= |text|
    ensures j <= e <= |text|
    ensures e == |text| || text[e] == '\n'
    ensures forall k :: j <= k < e ==> text[k] != '\n'
    decreases |text| - j
  {
    if j == |text| || text[j] == '\n' then j else LineEnd(text, j + 1)
  }

  /** The first digit in `text[j..e]`. */
  function FirstDigit(text: string, j: nat, e: nat): (r: Option<nat>)
    requires j <= e <= |text|
    ensures r.Some? ==> j <= r.value < e && IsDigit(text[r.value])
    ensures r.Some? ==> forall k :: j <= k < r.value ==> !IsDigit(text[k])
    ensures r.None? ==> forall k :: j <= k < e ==> !IsDigit(text[k])
    decreases e - j
  {
    if j == e then None
    else if IsDigit(text[j]) then Some(j)
    else FirstDigit(text, j + 1, e)
  }

  /** The fallback `score.*?(\d{1,3})` matches at position `i`: "score"
      there, then a digit later on the same line (`.` does not match `\n`). */
  predicate FallbackMatchesAt(text: string, i: nat)
    requires i <= |text|
  {
    WordAt(text, i, "score") && FirstDigit(text, i + 5, LineEnd(text, i + 5)).Some?
  }

  /** The captured group of that match: the first digit after "score" and up
      to two more that follow it. */
  function FallbackValueAt(text: string, i: nat): (v: nat)
    requires i <= |text| && FallbackMatchesAt(text, i)
    ensures v <= 999
  {
    var q := FirstDigit(text, i + 5, LineEnd(text, i + 5)).value;
    var end := Min(q + 3, DigitsEnd(text, q));
    var digits := text[q..end];
    assert 1 <= |digits| <= 3;
    assert Pow10(|digits|) <= 1000;
    DigitsValue(digits)
  }

  /** The leftmost position at or after `i` where the fallback matches, or
      `|text| + 1` when it matches nowhere. */
  function FallbackPosition(text: string, i: nat): (j: nat)
    requires i <= |text|
    ensures i <= j <= |text| + 1
    ensures forall k :: i <= k < j && k <= |text| ==> !FallbackMatchesAt(text, k)
    ensures j <= |text| ==> FallbackMatchesAt(text, j)
    decreases |text| - i
  {
    if FallbackMatchesAt(text, i) then i
    else if i == |text| then |text| + 1
    else FallbackPosition(text, i + 1)
  }

  /** Strategy 3: the value of the leftmost fallback match, at most 999. */
  function Fallback(text: string): (r: Option<nat>)
    ensures r.Some? ==> r.value <= 999
  {
    var j := FallbackPosition(text, 0);
    if j <= |text| then Some(FallbackValueAt(text, j)) else None
  }

  /** What `extract_score` returns for a reply, `None` standing for its
      `ValueError`; `jsonScore` is what the JSON-code-block strategy found. */
  function Extracted(text: string, jsonScore: Option<int>): Option<int> {
    if jsonScore.Some? then jsonScore
    else match PhraseScore(text)
      case Some(v) => Some(v)
      case None => match Fallback(text)
        case Some(v) => Some(v)
        case None => None
  }

  /** The precedence of the three strategies: a JSON block wins; otherwise
      the first phrase pattern in list order that matches; otherwise the
      fallback at its leftmost match, whose value has at most three digits;
      otherwise failure, which means that neither a phrase pattern nor the
      fallback matches anywhere. */
  lemma ExtractedPrecedence(text: string, jsonScore: Option<int>)
    ensures jsonScore.Some? ==> Extracted(text, jsonScore) == jsonScore
    ensures jsonScore.None? ==>
              var j := FirstMatching(PhrasePatterns, text);
              && (j < |PhrasePatterns| ==> Extracted(text, jsonScore) == Search(PhrasePatterns[j], text))
              && (j == |PhrasePatterns| && Extracted(text, jsonScore).Some? ==>
                    Extracted(text, jsonScore).value == FallbackValueAt(text, FallbackPosition(text, 0))
                    && 0 <= Extracted(text, jsonScore).value <= 999)
    ensures Extracted(text, jsonScore).None? <==>
              jsonScore.None?
              && (forall j :: 0 <= j < |PhrasePatterns| ==> Search(PhrasePatterns[j], text).None?)
              && (forall k :: 0 <= k <= |text| ==> !FallbackMatchesAt(text, k))
  {
  }

  lemma LeadingScoreMatch(text: string)
    requires text == "Score: 82"
    ensures Search(PhrasePatterns[0], text) == Some(82)
  {
    assert WordAt(text, 0, "score");
    assert SkipSpaces(text, 5) == 5 && WordAt(text, 5, ":");
    assert IsSpace(text[6]) && SkipSpaces(text, 7) == 7 && SkipSpaces(text, 6) == 7;
    assert DigitsEnd(text, 9) == 9 && DigitsEnd(text, 8) == 9 && DigitsEnd(text, 7) == 9;
    assert text[7..9] == "82";
    assert MatchTokens(PhrasePatterns[0], text, 0, "") == Some((9, "82"));
    assert DigitsValue("82") == 82;
  }

  /** A reply that opens with its score: the first phrase pattern captures
      the digits, ignoring the case of "Score". */
  lemma LeadingScoreIsPhrase(text: string)
    requires text == "Score: 82"
    ensures Extracted(text, None) == Some(82)
  {
    LeadingScoreMatch(text);
    FirstMatchingIs(PhrasePatterns, text, 0);
  }

  /** `extract_score`: tries the JSON block, then each phrase pattern in
      order, returning at the first match, then the fallback. */
  method ExtractScore(text: string, jsonScore: Option<int>) returns (r: Option<int>)
    ensures r == Extracted(text, jsonScore)
  {
    if jsonScore.Some? {
      return jsonScore;
    }
    var k := 0;
    while k < |PhrasePatterns|
      invariant 0 <= k <= |PhrasePatterns|
      invariant forall m :: 0 <= m < k ==> Search(PhrasePatterns[m], text).None?
    {
      var found := Search(PhrasePatterns[k], text);
      if found.Some? {
        FirstMatchingIs(PhrasePatterns, text, k);
        return Some(found.value);
      }
      k := k + 1;
    }
    FirstMatchingIs(PhrasePatterns, text, k);
    var fallback := Fallback(text);
    if fallback.Some? {
      return Some(fallback.value);
    }
    return None;
  }

  /** The reply of the language model, as far as scoring sees it. */
  datatype Answer =
    | NoAnswer                                        // the call returned nothing
    | ToolCall(score: Option<int>)                    // the "score" argument of the tool call
    | Reply(content: string, jsonScore: Option<int>)  // plain text, and what its JSON block holds

  /** The "score" entry of what `generate_score` returns (`None` when it
      returns nothing or raises): a tool call passes its "score" argument
      through, and a textual reply whose recovered score is 0 counts as
      failure. */
  function GenerateScore(answer: Answer): (r: Option<int>)
    ensures answer.NoAnswer? ==> r.None?
    ensures answer.Reply? ==> r != Some(0)
    ensures answer.Reply? && r.Some? ==> r == Extracted(answer.content, answer.jsonScore)
    ensures answer.Reply? ==>
              (r.Some? <==> Extracted(answer.content, answer.jsonScore).Some?
                            && Extracted(answer.content, answer.jsonScore).value != 0)
    ensures answer.ToolCall? ==> r == answer.score
  {
    match answer
    case NoAnswer => None
    case ToolCall(score) => score
    case Reply(content, jsonScore) =>
      var score := Extracted(content, jsonScore);
      if score.Some? && score.value != 0 then score else None
  }
}
