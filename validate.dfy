/**
 * The record validator `passes_filters` of search.py: a catalog record is
 * rejected when its duration exceeds the limit, when it has none of the
 * requested job levels, or none of the requested test types.
 */
module Validate {
  import opened Wrappers
  import opened Text
  import opened Extract

  /** A catalog record: each field as the text `str()` gives of it. */
  type Record = map<string, string>

  const DurationKey: string := "Duration"
  const JobLevelsKey: string := "Job Levels"
  const TestTypesKey: string := "Decoded Test Type(s)"

  /** `str(record.get(key, ""))` */
  function Field(record: Record, key: string): string {
    if key in record then record[key] else ""
  }

  // ---- Python int() on one token ----

  /** Decimal digits, single underscores allowed between two digits ("1_000"). */
  predicate DigitGroups(s: string) {
    && s != [] && IsDigit(s[0]) && IsDigit(s[|s| - 1])
    && (forall i :: 0 <= i < |s| ==> IsDigit(s[i]) || s[i] == '_')
    && (forall i :: 0 <= i < |s| - 1 ==> !(s[i] == '_' && s[i + 1] == '_'))
  }

  function DropUnderscores(s: string): (ds: string)
    requires forall i :: 0 <= i < |s| ==> IsDigit(s[i]) || s[i] == '_'
    ensures AllDigits(ds)
  {
    if s == [] then []
    else (if s[0] == '_' then [] else [s[0]]) + DropUnderscores(s[1..])
  }

  /** `int(token)` for a token without whitespace: an optional sign, then digit
      groups; `None` where `int()` raises ValueError. */
  function ParseInt(token: string): (r: Option<int>)
  {
    var signed := token != [] && (token[0] == '+' || token[0] == '-');
    var body := if signed then token[1..] else token;
    if !DigitGroups(body) then None
    else
      var n: int := DecimalValue(DropUnderscores(body));
      Some(if signed && token[0] == '-' then -n else n)
  }

  /** `str(n)` for an integer. */
  function Render(n: int): string {
    if n < 0 then "-" + DecimalDigits(-n) else DecimalDigits(n)
  }

  lemma {:induction false} DropUnderscoresOfDigits(ds: string)
    requires AllDigits(ds)
    ensures DropUnderscores(ds) == ds
  {
    if ds != [] {
      DropUnderscoresOfDigits(ds[1..]);
      assert [ds[0]] + ds[1..] == ds;
    }
  }

  /** `int(str(n)) == n` */
  lemma ParseRenderRoundTrip(n: int)
    ensures ParseInt(Render(n)) == Some(n)
  {
    var m := if n < 0 then -n else n;
    DecimalRoundTrip(m);
    if n < 0 {
      ParseNegativeDigits(DecimalDigits(m));
    } else {
      ParseDigits(DecimalDigits(m));
    }
  }

  /** `int()` of plain digits is their decimal value. */
  lemma ParseDigits(ds: string)
    requires ds != [] && AllDigits(ds)
    ensures ParseInt(ds) == Some(DecimalValue(ds))
  {
    DropUnderscoresOfDigits(ds);
    assert IsDigit(ds[0]) && IsDigit(ds[|ds| - 1]);
  }

  /** `int()` of a minus sign and digits is the negated decimal value. */
  lemma ParseNegativeDigits(ds: string)
    requires ds != [] && AllDigits(ds)
    ensures ParseInt("-" + ds) == Some(-(DecimalValue(ds) as int))
  {
    var t := "-" + ds;
    assert t[0] == '-' && t[1..] == ds;
    DropUnderscoresOfDigits(ds);
    assert IsDigit(ds[0]) && IsDigit(ds[|ds| - 1]);
  }

  /** The duration of a record: `int()` of the first word of its "Duration"
      text; `None` when the text is blank or `int()` raises. */
  function DurationOf(record: Record): Option<int> {
    var tokens := Words(Field(record, DurationKey));
    if tokens == [] then None else ParseInt(tokens[0])
  }

  /** A "Duration" written as a number followed by whitespace and more text
      (or nothing) reads as that number. */
  lemma DurationOfRendered(record: Record, n: int, rest: string)
    requires Field(record, DurationKey) == Render(n) + rest
    requires rest == [] || IsSpace(rest[0])
    ensures DurationOf(record) == Some(n)
  {
    assert NoSpace(Render(n)) by {
      assert forall i :: 0 <= i < |Render(n)| ==> IsDigit(Render(n)[i]) || Render(n)[i] == '-';
    }
    WordsOfWordThen(Render(n), rest);
    ParseRenderRoundTrip(n);
  }

  // ---- the three checks ----

  /** `any(n in hay for n in needles)` */
  function AnyIn(needles: seq<string>, hay: string): (b: bool)
    ensures b <==> exists n :: n in needles && Contains(hay, n)
  {
    if needles == [] then false
    else if Contains(hay, needles[0]) then
      assert needles[0] in needles;
      true
    else
      assert forall n :: n in needles <==> n == needles[0] || n in needles[1..];
      AnyIn(needles[1..], hay)
  }

  /** `[t.lower() for t in ts]` */
  function LowerEach(ts: seq<string>): (r: seq<string>)
    ensures |r| == |ts| && forall i :: 0 <= i < |ts| ==> r[i] == Lower(ts[i])
  {
    if ts == [] then [] else [Lower(ts[0])] + LowerEach(ts[1..])
  }

  /** The duration check of lines 76-77: a known, non-zero duration above the limit. */
  predicate TooLong(record: Record, f: Filters) {
    var d := DurationOf(record);
    f.maxDuration.Some? && d.Some? && d.value != 0 && d.value > f.maxDuration.value
  }

  /** `passes_filters(record, filters)` */
  predicate PassesFilters(record: Record, f: Filters) {
    if TooLong(record, f) then false
    else if f.jobLevels != [] && !AnyIn(f.jobLevels, Lower(Field(record, JobLevelsKey))) then false
    else if f.testTypes != [] && !AnyIn(LowerEach(f.testTypes), Lower(Field(record, TestTypesKey))) then false
    else true
  }

  /** The record is rejected for its job levels: some are requested and none
      occurs in its lower-cased "Job Levels". */
  ghost predicate LevelsMissing(record: Record, f: Filters) {
    f.jobLevels != [] && forall l :: l in f.jobLevels ==> !Contains(Lower(Field(record, JobLevelsKey)), l)
  }

  /** The record is rejected for its test types: some are requested and none,
      lower-cased, occurs in its lower-cased "Decoded Test Type(s)". */
  ghost predicate TypesMissing(record: Record, f: Filters) {
    f.testTypes != [] && forall t :: t in f.testTypes ==> !Contains(Lower(Field(record, TestTypesKey)), Lower(t))
  }

  /** `passes_filters` returns False exactly in the three rejection cases. */
  lemma PassesFiltersExactly(record: Record, f: Filters)
    ensures !PassesFilters(record, f) <==> TooLong(record, f) || LevelsMissing(record, f) || TypesMissing(record, f)
  {
    LowerEachMembers(f.testTypes);
  }

  lemma LowerEachMembers(ts: seq<string>)
    ensures forall n :: n in LowerEach(ts) <==> exists t :: t in ts && n == Lower(t)
  {
    var r := LowerEach(ts);
    forall n | n in r ensures exists t :: t in ts && n == Lower(t) {
      var i :| 0 <= i < |r| && r[i] == n;
      assert ts[i] in ts;
    }
    forall t | t in ts ensures Lower(t) in r {
      var i :| 0 <= i < |ts| && ts[i] == t;
      assert r[i] == Lower(t);
    }
  }

  /** With no duration, job-level or test-type filter every record passes. */
  lemma NoFiltersPassAll(record: Record)
    ensures PassesFilters(record, Filters(None, [], []))
  {
  }

  /** A record without a duration, or with a zero or unreadable one, never
      fails the duration check, whatever the limit. */
  lemma UnknownDurationNeverTooLong(record: Record, f: Filters)
    requires DurationOf(record) == None || DurationOf(record) == Some(0)
    ensures !TooLong(record, f)
  {
  }

  /** Raising the duration limit lets through every record that passed before. */
  lemma LargerLimitPassesMore(record: Record, f: Filters, limit: int)
    requires PassesFilters(record, f)
    requires f.maxDuration.Some? && f.maxDuration.value <= limit
    ensures PassesFilters(record, f.(maxDuration := Some(limit)))
  {
    PassesFiltersExactly(record, f);
    PassesFiltersExactly(record, f.(maxDuration := Some(limit)));
  }

  /** Requesting more job levels (any of which may match) lets through every
      record that passed before. */
  lemma MoreLevelsPassMore(record: Record, f: Filters, levels: seq<string>)
    requires PassesFilters(record, f)
    requires f.jobLevels != [] && forall l :: l in f.jobLevels ==> l in levels
    ensures PassesFilters(record, f.(jobLevels := levels))
  {
    PassesFiltersExactly(record, f);
    PassesFiltersExactly(record, f.(jobLevels := levels));
  }

  /** Requesting more test types lets through every record that passed before. */
  lemma MoreTypesPassMore(record: Record, f: Filters, types: seq<string>)
    requires PassesFilters(record, f)
    requires f.testTypes != [] && forall t :: t in f.testTypes ==> t in types
    ensures PassesFilters(record, f.(testTypes := types))
  {
    PassesFiltersExactly(record, f);
    PassesFiltersExactly(record, f.(testTypes := types));
  }

  /** A record whose job levels mention a level the prompt mentions is not
      rejected for its job levels by the filters extracted from that prompt. */
  lemma MentionedLevelKeeps(prompt: string, record: Record, level: string)
    requires level in JobLevels && Contains(Lower(prompt), level)
    requires Contains(Lower(Field(record, JobLevelsKey)), level)
    ensures !LevelsMissing(record, ExtractFilters(prompt))
  {
  }
}
