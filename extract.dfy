/**
 * The filter extractor `extract_filters_from_prompt` of search.py with its
 * fixed tables: the duration pattern `(\d+)\s*minutes?`, the job-level
 * keywords and the test-type keyword map.
 */
module Extract {
  import opened Wrappers
  import opened Text

  /** TEST_TYPE_MAP as (keyword, decoded test type) pairs, in the dict's insertion order. */
  const TestTypeMap: seq<(string, string)> := [
    ("ability", "Ability & Aptitude"),
    ("aptitude", "Ability & Aptitude"),
    ("biodata", "Biodata & Situational Judgement"),
    ("situational", "Biodata & Situational Judgement"),
    ("competency", "Competencies"),
    ("development", "Development & 360"),
    ("exercise", "Assessment Exercises"),
    ("skills", "Knowledge & Skills"),
    ("knowledge", "Knowledge & Skills"),
    ("personality", "Personality & Behavior"),
    ("behavior", "Personality & Behavior"),
    ("simulation", "Simulations")
  ]

  /** JOB_LEVELS */
  const JobLevels: seq<string> := ["entry", "mid", "senior", "executive", "graduate", "manager"]

  /** TEST_TYPE_MAP is a dict: twelve distinct keywords, each already lower-case,
      so every one of them can occur in the lower-cased prompt. */
  lemma TestTypeMapIsDict()
    ensures |TestTypeMap| == 12
    ensures forall i, j :: 0 <= i < j < |TestTypeMap| ==> TestTypeMap[i].0 != TestTypeMap[j].0
    ensures forall i :: 0 <= i < |TestTypeMap| ==> Lower(TestTypeMap[i].0) == TestTypeMap[i].0
  {
    forall i | 0 <= i < |TestTypeMap|
      ensures Lower(TestTypeMap[i].0) == TestTypeMap[i].0
    {
      LowerFixed(TestTypeMap[i].0);
    }
  }

  /** JOB_LEVELS: six distinct, lower-case levels. */
  lemma JobLevelsAreLowerCase()
    ensures |JobLevels| == 6
    ensures forall i, j :: 0 <= i < j < |JobLevels| ==> JobLevels[i] != JobLevels[j]
    ensures forall i :: 0 <= i < |JobLevels| ==> Lower(JobLevels[i]) == JobLevels[i]
  {
    forall i | 0 <= i < |JobLevels|
      ensures Lower(JobLevels[i]) == JobLevels[i]
    {
      LowerFixed(JobLevels[i]);
    }
  }

  /** The filters dict: "max_duration" is optional, the two lists are always set
      (and an absent list reads as an empty one in `passes_filters`). */
  datatype Filters = Filters(maxDuration: Option<int>, jobLevels: seq<string>, testTypes: seq<string>)

  // ---- DURATION_REGEX.search ----

  function DigitRunEnd(s: string, i: nat): (j: nat)
    requires i <= |s|
    ensures i <= j <= |s|
    ensures forall k :: i <= k < j ==> IsDigit(s[k])
    ensures j < |s| ==> !IsDigit(s[j])
    decreases |s| - i
  {
    if i < |s| && IsDigit(s[i]) then DigitRunEnd(s, i + 1) else i
  }

  function SpaceRunEnd(s: string, i: nat): (j: nat)
    requires i <= |s|
    ensures i <= j <= |s|
    ensures forall k :: i <= k < j ==> IsSpace(s[k])
    ensures j < |s| ==> !IsSpace(s[j])
    decreases |s| - i
  {
    if i < |s| && IsSpace(s[i]) then SpaceRunEnd(s, i + 1) else i
  }

  /** The pattern `(\d+)\s*minutes?` matches `s` from `p`, with group 1 spanning
      `s[p..q]` and "minute" starting at `r` (the optional "s" always matches). */
  ghost predicate DurationMatch(s: string, p: int, q: int, r: int) {
    && 0 <= p < q <= r && r + 6 <= |s|
    && (forall k :: p <= k < q ==> IsDigit(s[k]))
    && (forall k :: q <= k < r ==> IsSpace(s[k]))
    && s[r..r + 6] == "minute"
  }

  /** Whatever way the pattern matches at `p`, `\d+` has taken the whole digit
      run and `\s*` the whole whitespace run: the match at a position is unique. */
  lemma GreedyRuns(s: string, p: int, q: int, r: int)
    requires DurationMatch(s, p, q, r)
    ensures q == DigitRunEnd(s, p) && r == SpaceRunEnd(s, q)
  {
    assert s[r] == s[r..r + 6][0] == 'm';
    assert !IsDigit(s[q]);
    DigitRunEndAt(s, p, q);
    SpaceRunEndAt(s, q, r);
  }

  /** A run of digits from `i` that stops at `j` ends at `j`. */
  lemma {:induction false} DigitRunEndAt(s: string, i: nat, j: nat)
    requires i <= j <= |s|
    requires forall k :: i <= k < j ==> IsDigit(s[k])
    requires j == |s| || !IsDigit(s[j])
    ensures DigitRunEnd(s, i) == j
    decreases j - i
  {
    if i < j {
      DigitRunEndAt(s, i + 1, j);
    }
  }

  lemma {:induction false} SpaceRunEndAt(s: string, i: nat, j: nat)
    requires i <= j <= |s|
    requires forall k :: i <= k < j ==> IsSpace(s[k])
    requires j == |s| || !IsSpace(s[j])
    ensures SpaceRunEnd(s, i) == j
    decreases j - i
  {
    if i < j {
      SpaceRunEndAt(s, i + 1, j);
    }
  }

  /** A match that starts inside a digit run extends to one starting a digit earlier. */
  lemma MatchExtendsLeft(s: string, p: int, q: int, r: int)
    requires DurationMatch(s, p, q, r) && p > 0 && IsDigit(s[p - 1])
    ensures DurationMatch(s, p - 1, q, r)
  {
  }

  /** The regex search from position `p` on: the span of group 1 of the leftmost match. */
  function SearchFrom(s: string, p: nat): (m: Option<(nat, nat)>)
    requires p <= |s|
    ensures m.None? ==> forall i, q, r :: p <= i ==> !DurationMatch(s, i, q, r)
    ensures m.Some? ==> p <= m.value.0 < m.value.1 <= |s|
    ensures m.Some? ==> DurationMatch(s, m.value.0, m.value.1, SpaceRunEnd(s, m.value.1))
    ensures m.Some? ==> forall i, q, r :: p <= i < m.value.0 ==> !DurationMatch(s, i, q, r)
    decreases |s| - p
  {
    if p == |s| then
      None
    else if IsDigit(s[p]) && SpaceRunEnd(s, DigitRunEnd(s, p)) + 6 <= |s|
      && s[SpaceRunEnd(s, DigitRunEnd(s, p))..SpaceRunEnd(s, DigitRunEnd(s, p)) + 6] == "minute"
    then
      Some((p, DigitRunEnd(s, p)))
    else
      assert forall q, r :: !DurationMatch(s, p, q, r) by {
        forall q, r | DurationMatch(s, p, q, r) ensures false {
          GreedyRuns(s, p, q, r);
        }
      }
      SearchFrom(s, p + 1)
  }

  /** `DURATION_REGEX.search(s)`: `Some` exactly when the pattern matches
      somewhere; then the span of the leftmost match's digits, which is a whole
      digit run. */
  function DurationSearch(s: string): (m: Option<(nat, nat)>)
    ensures m.None? <==> forall p, q, r :: !DurationMatch(s, p, q, r)
    ensures m.Some? ==> var (p, q) := m.value;
      && p < q <= |s|
      && DurationMatch(s, p, q, SpaceRunEnd(s, q))
      && (forall i, q', r' :: i < p ==> !DurationMatch(s, i, q', r'))
      && (p == 0 || !IsDigit(s[p - 1]))
  {
    var m := SearchFrom(s, 0);
    if m.Some? && m.value.0 > 0 && IsDigit(s[m.value.0 - 1]) then
      MatchExtendsLeft(s, m.value.0, m.value.1, SpaceRunEnd(s, m.value.1));
      m
    else
      m
  }

  // ---- keyword tables ----

  /** `xs` is `ys` with some elements left out, the rest in order. */
  ghost predicate IsSubsequence<T>(xs: seq<T>, ys: seq<T>) {
    xs == [] || (ys != [] && ((xs[0] == ys[0] && IsSubsequence(xs[1..], ys[1..])) || IsSubsequence(xs, ys[1..])))
  }

  /** `[w for w in words if w in text]` */
  function Present(words: seq<string>, text: string): (r: seq<string>)
    ensures forall w :: w in r <==> w in words && Contains(text, w)
    ensures IsSubsequence(r, words)
  {
    if words == [] then []
    else if Contains(text, words[0]) then [words[0]] + Present(words[1..], text)
    else Present(words[1..], text)
  }

  function Keys(entries: seq<(string, string)>): (ks: seq<string>)
    ensures |ks| == |entries| && forall i :: 0 <= i < |ks| ==> ks[i] == entries[i].0
  {
    if entries == [] then [] else [entries[0].0] + Keys(entries[1..])
  }

  /** `[decoded for key, decoded in entries if key in text]`: the i-th result is
      the decoded name of the i-th keyword, in table order, that occurs in the text. */
  function TypesIn(entries: seq<(string, string)>, text: string): (r: seq<string>)
    ensures |r| == |Present(Keys(entries), text)|
    ensures forall i :: 0 <= i < |r| ==> (Present(Keys(entries), text)[i], r[i]) in entries
  {
    if entries == [] then []
    else
      var rest := TypesIn(entries[1..], text);
      assert Keys(entries)[1..] == Keys(entries[1..]);
      if Contains(text, entries[0].0) then [entries[0].1] + rest else rest
  }

  /** Every decoded test type returned stands for a keyword in the text. */
  lemma TypesAreDecodedKeywords(entries: seq<(string, string)>, text: string)
    ensures forall t :: t in TypesIn(entries, text) ==> exists k :: (k, t) in entries && Contains(text, k)
  {
    var r := TypesIn(entries, text);
    var ks := Present(Keys(entries), text);
    forall t | t in r ensures exists k :: (k, t) in entries && Contains(text, k) {
      var i :| 0 <= i < |r| && r[i] == t;
      assert ks[i] in ks;
      assert (ks[i], t) in entries;
    }
  }

  /** The "max_duration" entry for an already lower-cased prompt: the number
      written by the digits of the leftmost match, absent when nothing matches. */
  function MaxDuration(text: string): Option<int> {
    match DurationSearch(text)
    case Some((p, q)) => Some(DecimalValue(text[p..q]) as int)
    case None => None
  }

  /** The duration is present exactly when the pattern matches, and then it is
      the number the leftmost match's digits spell. */
  lemma MaxDurationIsLeftmost(text: string)
    ensures MaxDuration(text).Some? <==> exists p, q, r :: DurationMatch(text, p, q, r)
    ensures MaxDuration(text).Some? ==> MaxDuration(text).value >= 0 && exists p, q, r ::
      && DurationMatch(text, p, q, r)
      && (forall i, q', r' :: i < p ==> !DurationMatch(text, i, q', r'))
      && MaxDuration(text).value == DecimalValue(text[p..q])
  {
    var m := DurationSearch(text);
    if m.Some? {
      var (p, q) := m.value;
      assert DurationMatch(text, p, q, SpaceRunEnd(text, q));
    }
  }

  /** `extract_filters_from_prompt(prompt)`: the duration of the leftmost
      "N minute(s)", exactly the job levels that occur in the lower-cased prompt
      (in JOB_LEVELS order), and the decoded types of the keywords that occur. */
  function ExtractFilters(prompt: string): (f: Filters)
    ensures f.maxDuration == MaxDuration(Lower(prompt))
    ensures forall l :: l in f.jobLevels <==> l in JobLevels && Contains(Lower(prompt), l)
    ensures IsSubsequence(f.jobLevels, JobLevels)
    ensures |f.testTypes| == |Present(Keys(TestTypeMap), Lower(prompt))|
    ensures forall i :: 0 <= i < |f.testTypes| ==>
      (Present(Keys(TestTypeMap), Lower(prompt))[i], f.testTypes[i]) in TestTypeMap
  {
    var text := Lower(prompt);
    Filters(MaxDuration(text), Present(JobLevels, text), TypesIn(TestTypeMap, text))
  }

  /** Matching is by substring: a prompt that says "midnight" asks for the "mid" level. */
  lemma MidnightMentionsMid(prompt: string)
    requires Contains(Lower(prompt), "midnight")
    ensures "mid" in ExtractFilters(prompt).jobLevels
  {
    var text := Lower(prompt);
    var i :| OccursAt(text, "midnight", i);
    MidOfMidnight(text, i);
    assert "mid" in JobLevels;
  }

  lemma MidOfMidnight(text: string, i: int)
    requires OccursAt(text, "midnight", i)
    ensures OccursAt(text, "mid", i)
  {
    assert text[i..i + 3] == text[i..i + 8][..3];
  }

  /** Two synonyms in the prompt give the same decoded type twice. */
  lemma SynonymsRepeatTestType(prompt: string)
    requires Contains(Lower(prompt), "ability") && Contains(Lower(prompt), "aptitude")
    ensures exists i, j ::
      && 0 <= i < j < |ExtractFilters(prompt).testTypes|
      && ExtractFilters(prompt).testTypes[i] == "Ability & Aptitude"
      && ExtractFilters(prompt).testTypes[j] == "Ability & Aptitude"
  {
    var f := ExtractFilters(prompt);
    var ks := Present(Keys(TestTypeMap), Lower(prompt));
    assert Keys(TestTypeMap)[0] == "ability" && Keys(TestTypeMap)[1] == "aptitude";
    assert "ability" in ks && "aptitude" in ks;
    var i :| 0 <= i < |ks| && ks[i] == "ability";
    var j :| 0 <= j < |ks| && ks[j] == "aptitude";
    AbilityKeywordsDecode(ks[i], f.testTypes[i]);
    AbilityKeywordsDecode(ks[j], f.testTypes[j]);
    if i < j {
    } else {
      assert j < i;
    }
  }

  lemma AbilityKeywordsDecode(k: string, v: string)
    requires (k, v) in TestTypeMap && (k == "ability" || k == "aptitude")
    ensures v == "Ability & Aptitude"
  {
    var n :| 0 <= n < |TestTypeMap| && TestTypeMap[n] == (k, v);
  }
}
