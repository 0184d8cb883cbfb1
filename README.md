# Rule-based filtering and result collection of the assessment search

This project models the deterministic core of `search.py` in an assessment
recommendation service. A hiring requirement is rewritten by a language
model, embedded, and looked up in a nearest-neighbour index over the
assessment catalog. This project covers the rule-based layer around that
lookup:

- **`preprocess`** normalises the text that is embedded. It lower-cases the
  text, drops everything outside `[a-z0-9\s]`, collapses whitespace runs and
  strips the ends.
- **`extract_filters_from_prompt`** reads three filters from the rewritten
  query:
  - a maximum duration, from the leftmost `(\d+)\s*minutes?`;
  - the job levels of `JOB_LEVELS` that occur in the query;
  - the decoded test types of the `TEST_TYPE_MAP` keywords that occur.
- **`passes_filters`** accepts or rejects a catalog record against those
  filters.
- **`search`** walks the neighbours in order. It copies each record, scores
  it, keeps it when it passes, drops its "Decoded Test Type(s)" field, and
  stops at `top_k`. When nothing is kept it falls back. Otherwise it may
  rerank, may add explanations, and cuts the list to `top_k`.

The model is organised in modules:

- `Text` holds the Python string operations the code relies on:
  - `str.lower()` on ASCII;
  - the `str.isspace()` whitespace class, which is also `\s` in `re` on `str`;
  - `in` as a substring test;
  - `str.split()` and `" ".join`;
  - decimal digits.
- `Normalize` models `preprocess`.
- `Extract` models the tables and the extractor. The regex search is a
  function proved to return the leftmost match.
- `Validate` models `int()` on the duration token and `passes_filters`.
- `Retrieval` models the rest:
  - the collection loop, as an imperative method proved against the
    recursive specification `Gather`;
  - the parts of `search` around the loop, as methods. The embedding, the
    index lookup and the language-model calls are function-valued parameters.

Three behaviours of the code as written are kept:

- **Negative indices.** Only indices at or past the end of the metadata are
  skipped. A negative index such as FAISS's `-1` padding reads
  `metadata[idx]` from the end, so `-1` brings in the last record. An index
  below `-len(metadata)` raises `IndexError`, modelled as an `Err` result.
- **`top_k <= 0`.** The loop tests `len(results) >= top_k` only after
  looking at a record, so it still keeps at most one record. The final
  `results[:top_k]` then applies Python's slice rule for a negative bound.
  This path runs only if `index.search` returns neighbours for the
  non-positive `top_k * 5` instead of raising; the model reaches it because
  the lookup is an unconstrained parameter.
- **Zero duration.** A record whose duration reads as 0 never fails the
  duration check, because `duration_val` is tested for truthiness.

## Model

| member | source | states |
|---|---|---|
| Text.Lower | search.py:23 | `lower()` keeps the length and maps each character through ASCII lower-casing |
| Text.IsSpace | search.py:24-25 | the `str.isspace()` set, which is also `\s` in the patterns of lines 24, 25 and 51 and the separator `split()` uses at line 71; `WordsAreRuns` and `CollapseStripIsSplitJoin` state what the code does with it |
| Text.Contains | search.py:61 | `needle in hay` holds exactly when the needle occurs at some position of the haystack |
| Text.Words | search.py:25 | `str.split()` with no argument: the words between whitespace runs, in order; `WordsAreRuns` and `WordsJoinRoundTrip` state its properties |
| Text.DropSpaces | search.py:25 | the leading-whitespace half of `.strip()`: the result is a suffix with no leading whitespace, and everything dropped is whitespace |
| Text.WordsAreRuns | search.py:71 | every word `split()` returns is non-empty and has no whitespace |
| Text.WordsJoinRoundTrip | search.py:25 | splitting a single-space join of non-empty, whitespace-free words gives back those words |
| Text.DecimalRoundTrip | search.py:59 | the value of the decimal rendering of `n` is `n` |
| Text.DecimalValue | search.py:59 | `int()` on the ASCII digit run of the match; `DecimalRoundTrip` states its contract, and `MaxDurationIsLeftmost` uses it for the duration |
| Normalize.KeepAlnumSpace | search.py:24 | the result of `re.sub(r'[^a-z0-9\s]', '', s)` holds only lower-case letters, digits and whitespace |
| Normalize.KeepAlnumSpaceOne | search.py:24 | one character is kept exactly when it is a lower-case letter, a digit or whitespace |
| Normalize.KeepAlnumSpaceAppend | search.py:24 | the substitution distributes over concatenation, so with the one-character case it is exactly a character filter |
| Normalize.Collapse | search.py:25 | `re.sub(r'\s+', ' ', s)`: each maximal whitespace run becomes one space; `CollapseStripIsSplitJoin` states what it gives together with `Strip` |
| Normalize.StripRight | search.py:25 | the trailing-whitespace half of `.strip()`; `CollapseStripIsSplitJoin` states its effect |
| Normalize.Strip | search.py:25 | `.strip()`: leading and trailing whitespace removed; `CollapseStripIsSplitJoin` states its effect |
| Normalize.CollapseStripIsSplitJoin | search.py:25 | collapsing whitespace runs and stripping equals joining the words of `split()` with single spaces |
| Normalize.WordsOfCleaned | search.py:24-25 | every word of a cleaned string is made of letters and digits only |
| Normalize.JoinCanonical | search.py:25 | joining non-empty letter-and-digit words gives a string of letters, digits and single inner spaces |
| Normalize.Preprocess | search.py:22-26 | output holds only a-z, 0-9 and single spaces, with no space at either end; it equals `" ".join(cleaned.split())` |
| Normalize.PreprocessIdempotent | search.py:22-26 | `preprocess(preprocess(t)) == preprocess(t)` |
| Extract.TestTypeMapIsDict | search.py:37-50 | `TEST_TYPE_MAP` holds twelve distinct keywords, each already lower-case, so each can occur in the lower-cased prompt |
| Extract.JobLevelsAreLowerCase | search.py:52 | `JOB_LEVELS` holds six distinct lower-case levels |
| Extract.GreedyRuns | search.py:51 | any match of `(\d+)\s*minutes?` at a position takes the whole digit run and the whole whitespace run after it |
| Extract.SearchFrom | search.py:58 | the search from `p` finds a match exactly when one starts at or after `p`, and it returns the first such match |
| Extract.DurationSearch | search.py:58 | `DURATION_REGEX.search` is `None` exactly when no match exists; otherwise its group spans the leftmost match's digits, a whole digit run |
| Extract.MaxDuration | search.py:58-59 | `int(match.group(1))` when the pattern matches, else absent; `MaxDurationIsLeftmost` states its contract |
| Extract.MaxDurationIsLeftmost | search.py:58-59 | `max_duration` is present exactly when the pattern matches, and then it is the non-negative value of the leftmost match's digits |
| Extract.Present | search.py:61 | the job-level comprehension keeps exactly the entries that occur in the text, in table order |
| Extract.Keys | search.py:64 | the keywords of the table, in insertion order |
| Extract.TypesIn | search.py:63-65 | the i-th decoded type belongs to the i-th keyword, in table order, that occurs in the text |
| Extract.TypesAreDecodedKeywords | search.py:63-65 | every decoded type returned is the table value of some keyword that occurs in the text |
| Extract.ExtractFilters | search.py:54-67 | the duration comes from the lower-cased prompt; the job levels are exactly the occurring entries of `JOB_LEVELS`, in order; the test types pair index by index with the occurring keywords of `TEST_TYPE_MAP` |
| Extract.MidnightMentionsMid | search.py:61 | matching is by substring: a prompt containing "midnight" gets the "mid" level |
| Extract.SynonymsRepeatTestType | search.py:63-65 | a prompt with both "ability" and "aptitude" gets "Ability & Aptitude" twice |
| Validate.ParseRenderRoundTrip | search.py:72 | `int(str(n)) == n` for every integer (CPython's limit on the number of digits `int()` and `str()` accept is not modelled) |
| Validate.ParseInt | search.py:72 | `int()` on one `split()` token, `None` where `int()` raises; `ParseRenderRoundTrip`, `ParseDigits` and `DurationOfRendered` state its contract |
| Validate.DurationOf | search.py:70-74 | `duration_val`: the first word of `str(record.get("Duration", ""))` read by `int()`, `None` when there is no word or it does not parse; `DurationOfRendered` and `UnknownDurationNeverTooLong` state its contract |
| Validate.Field | search.py:71 | `str(record.get(key, ""))`, also at lines 80 and 85: the field's text, or the empty string when the key is missing; `PassesFiltersExactly` states how the three fields are read |
| Validate.TooLong | search.py:76 | the duration test: a limit is set and the duration is present, non-zero and over it; `UnknownDurationNeverTooLong` and `LargerLimitPassesMore` state its contract |
| Validate.PassesFilters | search.py:69-89 | `passes_filters`; `PassesFiltersExactly` states its exact rejection conditions |
| Validate.DurationOfRendered | search.py:70-72 | a "Duration" that starts with a number followed by whitespace or the end reads as that number |
| Validate.AnyIn | search.py:81 | `any(n in hay for n in needles)` holds exactly when some needle occurs in the haystack |
| Validate.LowerEach | search.py:86 | `t.lower()` over the requested types: same length, the i-th entry lower-cased; `LowerEachMembers` states its membership |
| Validate.LowerEachMembers | search.py:86 | the lower-cased test types are exactly the lower-cased forms of the requested types |
| Validate.PassesFiltersExactly | search.py:69-89 | a record fails exactly when: its duration is non-zero and over the limit; or levels are requested and none occurs in its lower-cased "Job Levels"; or types are requested and none, lower-cased, occurs in its lower-cased "Decoded Test Type(s)" |
| Validate.NoFiltersPassAll | search.py:69-89 | with no duration, level or type filter every record passes |
| Validate.UnknownDurationNeverTooLong | search.py:70-77 | a missing, unreadable or zero duration never fails the duration check |
| Validate.LargerLimitPassesMore | search.py:76-77 | raising the duration limit keeps every record that passed |
| Validate.MoreLevelsPassMore | search.py:79-82 | requesting a superset of job levels keeps every record that passed |
| Validate.MoreTypesPassMore | search.py:84-87 | requesting a superset of test types keeps every record that passed |
| Validate.MentionedLevelKeeps | search.py:79-82 | a record whose "Job Levels" mention a level named in the prompt is not rejected for its levels |
| Retrieval.Scored | search.py:120-121 | the copy has the record's fields plus "Score" set to the score |
| Retrieval.Kept | search.py:119-124 | the appended record has exactly the catalog record's keys plus "Score" minus "Decoded Test Type(s)"; "Score" holds the score and every other field is the catalog's |
| Retrieval.Position | search.py:120 | `metadata[idx]` reads a position inside the list, counting from the end for a negative index |
| Retrieval.Zip | search.py:116 | `zip` pairs the i-th index with the i-th score, up to the shorter length |
| Retrieval.Slice | search.py:146 | `xs[:k]` is a prefix of `xs` of length `min(k, len)`, or `len + k` (at least 0) for negative `k` |
| Retrieval.Gather | search.py:115-127 | the recursive specification of the loop: skip indices at or past the end, raise below `-len(metadata)`, keep passing records, stop once `top_k` are kept; the `Gather...` lemmas state its properties |
| Retrieval.CollectResults | search.py:115-127 | the loop returns what `Gather` specifies for the zipped neighbours, or the `IndexError` |
| Retrieval.GatherIsFirstTopK | search.py:116-127 | with `top_k >= 1` and no index below `-len(metadata)`, the results are the first `top_k` passing records in neighbour order |
| Retrieval.GatherAtMost | search.py:126-127 | the loop keeps at most `top_k` results, and at most one when `top_k <= 0` |
| Retrieval.GatherKeepsOnlyPassing | search.py:117-125 | each result is the kept form of a record, at some neighbour position, that passed the filters |
| Retrieval.GatherRaisesOnlyBelowRange | search.py:117-120 | the loop raises only if some index is below `-len(metadata)` |
| Retrieval.MinusOneReadsLastRecord | search.py:117-120 | a `-1` neighbour is not skipped: it brings in the last catalog record when that record passes |
| Retrieval.Explained | search.py:140-141 | each result gains "LLM Explanation" with the explanation of itself, and its other fields are unchanged |
| Retrieval.ExplainAll | search.py:140-141 | the explanation loop produces exactly the explained results |
| Retrieval.Ranked | search.py:136-141 | the optional rerank then the optional explanations; explaining neither adds nor drops results |
| Retrieval.Collected | search.py:105-127 | a failed FAISS search yields no results; otherwise the loop's results over the zipped neighbours, at most `top_k` (at most one when `top_k <= 0`) |
| Retrieval.Retrieve | search.py:98-127 | the collected results are those of the loop over the neighbours of the normalised rewritten query, filtered by that query's filters; a failed lookup yields none |
| Retrieval.Finish | search.py:129-146 | an error propagates; the fallback is given exactly when nothing was kept; otherwise the results are the reranked and explained list cut to `top_k`, at most `top_k` long |
| Retrieval.Search | search.py:91-146 | the whole pipeline: the fallback exactly when the lookup failed or nothing passed, else the collected, reranked and explained results cut to `top_k` |
| Retrieval.RankedShape | search.py:122-146 | without a rerank every returned result carries a score and no "Decoded Test Type(s)" |
| Retrieval.FinalSliceRedundant | search.py:126-146 | with `top_k >= 1` and no rerank, the final `[:top_k]` changes nothing |

## Left out

- Text.Lower: only ASCII letters are lower-cased. Python's full Unicode `lower()` (for example U+0130 or the Kelvin sign) is not modelled.
- Extract.DurationSearch: `\d` matches ASCII digits only. Python's `re` on `str` also matches other Unicode decimal digits, and `int()` reads them.
- Validate.ParseInt models `int()` on one whitespace-free token: an optional sign, then digits with single underscores between them. Non-ASCII digits are not modelled.
- Extract.MaxDuration: CPython (3.11 and later) refuses `int()` on a digit string longer than 4300 digits by default. At line 59 that `ValueError` is not caught, so `search` raises. The model reads any digit run.
- Validate.ParseInt: the same `int()` digit limit applies at line 72. There the `ValueError` is caught and the duration reads as `None`. The model reads any digit run, so such a record can still fail the duration check.
- The metadata is taken to be a Python list, as pickled by the index builder. A dict keyed by position would raise `KeyError` for a negative index instead of reading from the end.
- Record values: each field is modelled as the text `str()` gives for it. The Python objects behind the metadata are not modelled.
- `load_index_and_metadata` and its process-wide cache (file I/O and pickle) are not modelled. The metadata is a parameter.
- The embedding model, `normalize` and the FAISS search (floating-point vector code) are not modelled. `Search` takes a `nearest` function from the normalised query and `top_k * 5` to indices and scores, or to `None` when the FAISS search raises. Only `index.search` sits inside the `try`: an exception from the encoder or `normalize` would propagate out of `search`, and that path is not modelled. Scores are opaque reals.
- `rewrite_query`, `rerank_results`, `generate_fallback` and `explain_reasoning` are hosted language-model calls. They are function parameters with no assumed behaviour. None of them sits inside a `try` (lines 94, 112, 133, 137 and 141), so an exception from any of them propagates out of `search`; total function parameters cannot raise, so that error path is not modelled.
- Retrieval.CollectResults applies `passes_filters` to the catalog record rather than to the scored copy. The only difference is the "Score" key, which `passes_filters` never reads.
- Retrieval.Finish: records are values. The code mutates result dicts in place, and an aliased dict returned twice by the reranker would get its explanation twice; that aliasing is not modelled.
- The `debug` prints, the `__main__` CLI block and api.py (HTTP plumbing) are not modelled.
