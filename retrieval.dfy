/**
 * The result-collection part of `search` in search.py: walk the nearest
 * neighbours in order, keep the catalog records that pass the filters, stop at
 * `top_k`, and fall back when nothing is kept. The embedding, the FAISS lookup
 * and the language-model calls are parameters of `Search`.
 */
module Retrieval {
  import opened Wrappers
  import Normalize
  import opened Extract
  import opened Validate

  /** A value in a result record: catalog text, or a score or explanation added by `search`. */
  datatype Value = Str(text: string) | Score(score: real)

  /** A result record, a dict from field names to values. */
  type Hit = map<string, Value>

  const ScoreKey: string := "Score"
  const ExplanationKey: string := "LLM Explanation"

  /** The one exception the collection loop can raise: `metadata[idx]` with `idx < -len(metadata)`. */
  datatype Error = IndexError

  datatype Response = Response(rewrittenQuery: string, results: seq<Hit>, fallback: Option<string>)

  /** `metadata[idx].copy()` followed by `record["Score"] = float(score)`. */
  function Scored(record: Record, score: real): (h: Hit)
    ensures h.Keys == record.Keys + {ScoreKey} && h[ScoreKey] == Score(score)
    ensures forall k :: k in record && k != ScoreKey ==> h[k] == Str(record[k])
  {
    (map k | k in record :: Str(record[k]))[ScoreKey := Score(score)]
  }

  /** The record as it is appended, after `record.pop("Decoded Test Type(s)", None)`. */
  function Kept(record: Record, score: real): (h: Hit)
    ensures TestTypesKey !in h && ScoreKey in h && h[ScoreKey] == Score(score)
    ensures h.Keys == (record.Keys + {ScoreKey}) - {TestTypesKey}
    ensures forall k :: k in h && k != ScoreKey ==> k in record && h[k] == Str(record[k])
  {
    Scored(record, score) - {TestTypesKey}
  }

  /** The position `metadata[idx]` reads: a negative index counts from the end. */
  function Position(n: nat, idx: int): (p: nat)
    requires -(n as int) <= idx < n
    ensures p < n
  {
    if idx < 0 then n + idx else idx
  }

  /** `zip(indices, scores)` */
  function Zip(indices: seq<int>, scores: seq<real>): (pairs: seq<(int, real)>)
    ensures |pairs| == if |indices| <= |scores| then |indices| else |scores|
    ensures forall i :: 0 <= i < |pairs| ==> pairs[i] == (indices[i], scores[i])
  {
    seq(if |indices| <= |scores| then |indices| else |scores|, i requires 0 <= i < |indices| && i < |scores| => (indices[i], scores[i]))
  }

  /** `xs[:k]` with Python's meaning of a negative `k`. */
  function Slice<T>(xs: seq<T>, k: int): (r: seq<T>)
    ensures |r| <= |xs| && r == xs[..|r|]
    ensures k >= 0 ==> |r| == if k <= |xs| then k else |xs|
    ensures k < 0 ==> |r| == if |xs| + k >= 0 then |xs| + k else 0
  {
    if k >= 0 then xs[..if k <= |xs| then k else |xs|]
    else xs[..if |xs| + k >= 0 then |xs| + k else 0]
  }

  function Prepend(h: Hit, r: Result<seq<Hit>, Error>): Result<seq<Hit>, Error> {
    match r
    case Ok(hs) => Ok([h] + hs)
    case Err(e) => Err(e)
  }

  function AppendTo(hs: seq<Hit>, r: Result<seq<Hit>, Error>): Result<seq<Hit>, Error> {
    match r
    case Ok(more) => Ok(hs + more)
    case Err(e) => Err(e)
  }

  /** `passes_filters(record, filters)` as a predicate on catalog records. */
  function Passes(f: Filters): Record -> bool {
    record => PassesFilters(record, f)
  }

  /** What the loop keeps from the (index, score) pairs still ahead of it while
      it holds `topK - need` results: indices at or past the end are skipped,
      an index below `-len(metadata)` raises, and the loop stops once it holds
      `topK` results (right after the first record it looks at when `topK <= 0`). */
  function Gather(meta: seq<Record>, pairs: seq<(int, real)>, keep: Record -> bool, need: int): Result<seq<Hit>, Error>
    decreases |pairs|
  {
    if pairs == [] then Ok([])
    else
      var (idx, score) := pairs[0];
      if idx >= |meta| then Gather(meta, pairs[1..], keep, need)
      else if idx < -|meta| then Err(IndexError)
      else
        var record := meta[Position(|meta|, idx)];
        if keep(record) then
          if need <= 1 then Ok([Kept(record, score)])
          else Prepend(Kept(record, score), Gather(meta, pairs[1..], keep, need - 1))
        else if need <= 0 then Ok([])
        else Gather(meta, pairs[1..], keep, need)
  }

  /** The loop at lines 115-127: the records kept are exactly what `Gather` says. */
  method CollectResults(meta: seq<Record>, indices: seq<int>, scores: seq<real>, f: Filters, topK: int)
    returns (r: Result<seq<Hit>, Error>)
    ensures r == Gather(meta, Zip(indices, scores), Passes(f), topK)
  {
    ghost var keep := Passes(f);
    ghost var pairs := Zip(indices, scores);
    var n := if |indices| <= |scores| then |indices| else |scores|;
    var results: seq<Hit> := [];
    var i := 0;
    LoopEntry(meta, pairs, keep, topK);
    while i < n
      invariant 0 <= i <= n
      invariant LoopState(meta, pairs, keep, topK, results, i)
    {
      var idx, score := indices[i], scores[i];
      if idx >= |meta| {
        StepSkip(meta, pairs, keep, topK, results, i);
        i := i + 1;
        continue;
      }
      if idx < -|meta| {
        StepRaise(meta, pairs, keep, topK, results, i);
        return Err(IndexError);
      }
      ghost var before := results;
      var record := Scored(meta[Position(|meta|, idx)], score);
      if PassesFilters(meta[Position(|meta|, idx)], f) {
        record := record - {TestTypesKey};
        results := results + [record];
      }
      StepLook(meta, pairs, keep, topK, before, i, results);
      if |results| >= topK {
        break;
      }
      i := i + 1;
    }
    if i == n {
      LoopExit(meta, pairs, keep, topK, results, i);
    }
    r := Ok(results);
  }

  /** The loop invariant: what is still to come, appended to what is held, is the whole answer. */
  ghost predicate LoopState(meta: seq<Record>, pairs: seq<(int, real)>, keep: Record -> bool, topK: int, results: seq<Hit>, i: nat) {
    i <= |pairs| && Gather(meta, pairs, keep, topK) == AppendTo(results, Gather(meta, pairs[i..], keep, topK - |results|))
  }

  lemma LoopEntry(meta: seq<Record>, pairs: seq<(int, real)>, keep: Record -> bool, topK: int)
    ensures LoopState(meta, pairs, keep, topK, [], 0)
  {
    assert pairs[0..] == pairs;
    var g := Gather(meta, pairs, keep, topK);
    if g.Ok? {
      assert [] + g.value == g.value;
    }
  }

  lemma LoopExit(meta: seq<Record>, pairs: seq<(int, real)>, keep: Record -> bool, topK: int, results: seq<Hit>, i: nat)
    requires i == |pairs| && LoopState(meta, pairs, keep, topK, results, i)
    ensures Gather(meta, pairs, keep, topK) == Ok(results)
  {
    assert pairs[i..] == [];
    assert results + [] == results;
  }

  lemma StepSkip(meta: seq<Record>, pairs: seq<(int, real)>, keep: Record -> bool, topK: int, results: seq<Hit>, i: nat)
    requires i < |pairs| && pairs[i].0 >= |meta|
    requires LoopState(meta, pairs, keep, topK, results, i)
    ensures LoopState(meta, pairs, keep, topK, results, i + 1)
  {
    GatherUnfold(meta, pairs, keep, topK - |results|, i, pairs[i].0, pairs[i].1);
  }

  lemma StepRaise(meta: seq<Record>, pairs: seq<(int, real)>, keep: Record -> bool, topK: int, results: seq<Hit>, i: nat)
    requires i < |pairs| && pairs[i].0 < -|meta|
    requires LoopState(meta, pairs, keep, topK, results, i)
    ensures Gather(meta, pairs, keep, topK) == Err(IndexError)
  {
    GatherUnfold(meta, pairs, keep, topK - |results|, i, pairs[i].0, pairs[i].1);
  }

  /** One record looked at: it is appended when it passes; the loop then either
      stops with the whole answer or goes on with the invariant. */
  lemma StepLook(meta: seq<Record>, pairs: seq<(int, real)>, keep: Record -> bool, topK: int, results: seq<Hit>, i: nat, next: seq<Hit>)
    requires i < |pairs| && -|meta| <= pairs[i].0 < |meta|
    requires LoopState(meta, pairs, keep, topK, results, i)
    requires var record := meta[Position(|meta|, pairs[i].0)];
      next == if keep(record) then results + [Kept(record, pairs[i].1)] else results
    ensures |next| >= topK ==> Gather(meta, pairs, keep, topK) == Ok(next)
    ensures |next| < topK ==> LoopState(meta, pairs, keep, topK, next, i + 1)
  {
    var (idx, score) := pairs[i];
    var record := meta[Position(|meta|, idx)];
    GatherUnfold(meta, pairs, keep, topK - |results|, i, idx, score);
    if keep(record) {
      StepKeep(meta, pairs, keep, topK, results, i, Kept(record, score));
    } else {
      StepDrop(meta, pairs, keep, topK, results, i);
    }
  }

  lemma StepKeep(meta: seq<Record>, pairs: seq<(int, real)>, keep: Record -> bool, topK: int, results: seq<Hit>, i: nat, h: Hit)
    requires i < |pairs|
    requires LoopState(meta, pairs, keep, topK, results, i)
    requires var need := topK - |results|;
      Gather(meta, pairs[i..], keep, need) ==
        if need <= 1 then Ok([h]) else Prepend(h, Gather(meta, pairs[i + 1..], keep, need - 1))
    ensures |results + [h]| >= topK ==> Gather(meta, pairs, keep, topK) == Ok(results + [h])
    ensures |results + [h]| < topK ==> LoopState(meta, pairs, keep, topK, results + [h], i + 1)
  {
    var need := topK - |results|;
    assert |results + [h]| == |results| + 1;
    if need <= 1 {
      AppendOne(results, h);
    } else {
      AppendPrepend(results, h, Gather(meta, pairs[i + 1..], keep, need - 1));
    }
  }

  lemma AppendOne(results: seq<Hit>, h: Hit)
    ensures AppendTo(results, Ok([h])) == Ok(results + [h])
  {
  }

  lemma AppendPrepend(results: seq<Hit>, h: Hit, rest: Result<seq<Hit>, Error>)
    ensures AppendTo(results, Prepend(h, rest)) == AppendTo(results + [h], rest)
  {
    if rest.Ok? {
      assert results + [h] + rest.value == results + ([h] + rest.value);
    }
  }

  lemma StepDrop(meta: seq<Record>, pairs: seq<(int, real)>, keep: Record -> bool, topK: int, results: seq<Hit>, i: nat)
    requires i < |pairs|
    requires LoopState(meta, pairs, keep, topK, results, i)
    requires var need := topK - |results|;
      Gather(meta, pairs[i..], keep, need) ==
        if need <= 0 then Ok([]) else Gather(meta, pairs[i + 1..], keep, need)
    ensures |results| >= topK ==> Gather(meta, pairs, keep, topK) == Ok(results)
    ensures |results| < topK ==> LoopState(meta, pairs, keep, topK, results, i + 1)
  {
    assert results + [] == results;
  }

  /** One step of `Gather` at position `i` of the pairs. */
  lemma GatherUnfold(meta: seq<Record>, pairs: seq<(int, real)>, keep: Record -> bool, need: int, i: nat, idx: int, score: real)
    requires i < |pairs| && pairs[i] == (idx, score)
    ensures idx >= |meta| ==> Gather(meta, pairs[i..], keep, need) == Gather(meta, pairs[i + 1..], keep, need)
    ensures idx < -|meta| ==> Gather(meta, pairs[i..], keep, need) == Err(IndexError)
    ensures -|meta| <= idx < |meta| && keep(meta[Position(|meta|, idx)]) ==>
      Gather(meta, pairs[i..], keep, need) ==
        if need <= 1 then Ok([Kept(meta[Position(|meta|, idx)], score)])
        else Prepend(Kept(meta[Position(|meta|, idx)], score), Gather(meta, pairs[i + 1..], keep, need - 1))
    ensures -|meta| <= idx < |meta| && !keep(meta[Position(|meta|, idx)]) ==>
      Gather(meta, pairs[i..], keep, need) == if need <= 0 then Ok([]) else Gather(meta, pairs[i + 1..], keep, need)
  {
    assert pairs[i..][0] == pairs[i] && pairs[i..][1..] == pairs[i + 1..];
  }

  // ---- what the loop guarantees ----

  /** No index below `-len(metadata)`: the loop cannot raise. */
  ghost predicate InRangeBelow(meta: seq<Record>, pairs: seq<(int, real)>) {
    forall i :: 0 <= i < |pairs| ==> pairs[i].0 >= -|meta|
  }

  /** Every record that passes, in neighbour order, with no stopping: an
      independent statement of what the loop collects. */
  function AllKept(meta: seq<Record>, pairs: seq<(int, real)>, keep: Record -> bool): seq<Hit>
    requires InRangeBelow(meta, pairs)
  {
    if pairs == [] then []
    else
      var (idx, score) := pairs[0];
      var rest := AllKept(meta, pairs[1..], keep);
      if idx >= |meta| then rest
      else if keep(meta[Position(|meta|, idx)]) then [Kept(meta[Position(|meta|, idx)], score)] + rest
      else rest
  }

  /** With `top_k >= 1` and no index below `-len(metadata)`, the loop returns
      the first `top_k` passing records in neighbour order. */
  lemma {:induction false} GatherIsFirstTopK(meta: seq<Record>, pairs: seq<(int, real)>, keep: Record -> bool, topK: int)
    requires topK >= 1 && InRangeBelow(meta, pairs)
    ensures Gather(meta, pairs, keep, topK) == Ok(Slice(AllKept(meta, pairs, keep), topK))
    decreases |pairs|
  {
    if pairs != [] {
      assert InRangeBelow(meta, pairs[1..]);
      var (idx, score) := pairs[0];
      var rest := AllKept(meta, pairs[1..], keep);
      if idx >= |meta| {
        GatherIsFirstTopK(meta, pairs[1..], keep, topK);
      } else if keep(meta[Position(|meta|, idx)]) {
        var h := Kept(meta[Position(|meta|, idx)], score);
        if topK > 1 {
          GatherIsFirstTopK(meta, pairs[1..], keep, topK - 1);
          assert Slice([h] + rest, topK) == [h] + Slice(rest, topK - 1);
        } else {
          assert Slice([h] + rest, topK) == [h];
        }
      } else {
        GatherIsFirstTopK(meta, pairs[1..], keep, topK);
      }
    }
  }

  /** The loop holds at most `top_k` results, and at most one when `top_k <= 0`. */
  lemma {:induction false} GatherAtMost(meta: seq<Record>, pairs: seq<(int, real)>, keep: Record -> bool, need: int)
    ensures Gather(meta, pairs, keep, need).Ok? ==>
      |Gather(meta, pairs, keep, need).value| <= if need >= 1 then need else 1
    decreases |pairs|
  {
    if pairs != [] {
      var (idx, score) := pairs[0];
      if idx >= |meta| {
        GatherAtMost(meta, pairs[1..], keep, need);
      } else if idx >= -|meta| {
        if keep(meta[Position(|meta|, idx)]) {
          GatherAtMost(meta, pairs[1..], keep, need - 1);
        } else {
          GatherAtMost(meta, pairs[1..], keep, need);
        }
      }
    }
  }

  /** Every result comes from a neighbour whose catalog record passed the
      filters: it is that record with its score and without "Decoded Test Type(s)". */
  lemma {:induction false} GatherKeepsOnlyPassing(meta: seq<Record>, pairs: seq<(int, real)>, keep: Record -> bool, need: int)
    ensures Gather(meta, pairs, keep, need).Ok? ==>
      forall h :: h in Gather(meta, pairs, keep, need).value ==>
        exists i ::
          && 0 <= i < |pairs| && -|meta| <= pairs[i].0 < |meta|
          && keep(meta[Position(|meta|, pairs[i].0)])
          && h == Kept(meta[Position(|meta|, pairs[i].0)], pairs[i].1)
    decreases |pairs|
  {
    if pairs != [] {
      var (idx, score) := pairs[0];
      var need' := if idx < |meta| && idx >= -|meta| && keep(meta[Position(|meta|, idx)]) then need - 1 else need;
      GatherKeepsOnlyPassing(meta, pairs[1..], keep, need');
      var g := Gather(meta, pairs, keep, need);
      if g.Ok? {
        forall h | h in g.value
          ensures exists i ::
            && 0 <= i < |pairs| && -|meta| <= pairs[i].0 < |meta|
            && keep(meta[Position(|meta|, pairs[i].0)])
            && h == Kept(meta[Position(|meta|, pairs[i].0)], pairs[i].1)
        {
          if idx < |meta| && idx >= -|meta| && keep(meta[Position(|meta|, idx)])
            && h == Kept(meta[Position(|meta|, idx)], score) {
            assert pairs[0].0 == idx;
          } else {
            var rest := Gather(meta, pairs[1..], keep, need');
            assert h in rest.value;
            var i :| 0 <= i < |pairs[1..]| && -|meta| <= pairs[1..][i].0 < |meta|
              && keep(meta[Position(|meta|, pairs[1..][i].0)])
              && h == Kept(meta[Position(|meta|, pairs[1..][i].0)], pairs[1..][i].1);
            assert pairs[1..][i] == pairs[i + 1];
          }
        }
      }
    }
  }

  /** The loop raises only when some index is below `-len(metadata)`. */
  lemma {:induction false} GatherRaisesOnlyBelowRange(meta: seq<Record>, pairs: seq<(int, real)>, keep: Record -> bool, need: int)
    requires Gather(meta, pairs, keep, need).Err?
    ensures exists i :: 0 <= i < |pairs| && pairs[i].0 < -|meta|
    decreases |pairs|
  {
    var (idx, score) := pairs[0];
    if idx < -|meta| {
      assert pairs[0].0 < -|meta|;
    } else {
      var need' := if idx < |meta| && keep(meta[Position(|meta|, idx)]) then need - 1 else need;
      GatherRaisesOnlyBelowRange(meta, pairs[1..], keep, need');
      var i :| 0 <= i < |pairs[1..]| && pairs[1..][i].0 < -|meta|;
      assert pairs[i + 1].0 < -|meta|;
    }
  }

  /** FAISS pads missing neighbours with -1; `metadata[-1]` is the last record,
      so a -1 neighbour brings in the last catalog record when it passes. */
  lemma MinusOneReadsLastRecord(meta: seq<Record>, score: real, keep: Record -> bool, topK: int)
    requires meta != [] && keep(meta[|meta| - 1])
    ensures Gather(meta, [(-1, score)], keep, topK) == Ok([Kept(meta[|meta| - 1], score)])
  {
    var pairs := [(-1, score)];
    assert pairs[0] == (-1, score) && pairs[1..] == [];
    assert Position(|meta|, -1) == |meta| - 1;
    var h := Kept(meta[|meta| - 1], score);
    assert Gather(meta, pairs[1..], keep, topK - 1) == Ok([]);
    assert [h] + [] == [h];
  }

  // ---- the search pipeline around the loop ----

  /** `r["LLM Explanation"] = explain_reasoning(rewritten_query, r)` on every result. */
  function Explained(query: string, hits: seq<Hit>, explain: (string, Hit) -> string): (r: seq<Hit>)
    ensures |r| == |hits|
    ensures forall i :: 0 <= i < |hits| ==> r[i].Keys == hits[i].Keys + {ExplanationKey}
    ensures forall i :: 0 <= i < |hits| ==> r[i][ExplanationKey] == Str(explain(query, hits[i]))
    ensures forall i, k :: 0 <= i < |hits| && k in hits[i] && k != ExplanationKey ==> r[i][k] == hits[i][k]
  {
    seq(|hits|, i requires 0 <= i < |hits| => hits[i][ExplanationKey := Str(explain(query, hits[i]))])
  }

  /** The explanation loop at lines 139-141. */
  method ExplainAll(query: string, hits: seq<Hit>, explain: (string, Hit) -> string) returns (out: seq<Hit>)
    ensures out == Explained(query, hits, explain)
  {
    out := hits;
    for j := 0 to |out|
      invariant |out| == |hits|
      invariant forall m :: 0 <= m < j ==> out[m] == hits[m][ExplanationKey := Str(explain(query, hits[m]))]
      invariant forall m :: j <= m < |out| ==> out[m] == hits[m]
    {
      out := out[j := out[j][ExplanationKey := Str(explain(query, out[j]))]];
    }
  }

  /** The results after the optional rerank and the optional explanations,
      before the final `[:top_k]`. */
  function Ranked(query: string, kept: seq<Hit>, doRerank: bool, includeExplanations: bool,
                  rerank: (string, seq<Hit>) -> seq<Hit>, explain: (string, Hit) -> string): (r: seq<Hit>)
    ensures |r| == |if doRerank then rerank(query, kept) else kept|
  {
    var ordered := if doRerank then rerank(query, kept) else kept;
    if includeExplanations then Explained(query, ordered, explain) else ordered
  }

  /** What the collection loop produces for a query, the FAISS step having
      failed (`None`) or returned neighbours and scores. */
  function Collected(meta: seq<Record>, found: Option<(seq<int>, seq<real>)>, f: Filters, topK: int): (r: Result<seq<Hit>, Error>)
    ensures found.None? ==> r == Ok([])
    ensures r.Ok? ==> |r.value| <= if topK >= 1 then topK else 1
  {
    match found
    case None => Ok([])
    case Some((indices, scores)) =>
      GatherAtMost(meta, Zip(indices, scores), Passes(f), topK);
      Gather(meta, Zip(indices, scores), Passes(f), topK)
  }

  /** Lines 94-127 after the rewrite: filters from the rewritten query, the
      neighbour lookup on its normalised form, and the collection loop. */
  method Retrieve(rq: string, topK: int, meta: seq<Record>, nearest: (string, int) -> Option<(seq<int>, seq<real>)>)
    returns (kept: Result<seq<Hit>, Error>)
    ensures kept == Collected(meta, nearest(Normalize.Preprocess(rq), topK * 5), ExtractFilters(rq), topK)
  {
    var filters := ExtractFilters(rq);
    var found := nearest(Normalize.Preprocess(rq), topK * 5);
    if found.None? {
      return Ok([]);
    }
    var (indices, scores) := found.value;
    kept := CollectResults(meta, indices, scores, filters, topK);
  }

  /** Lines 107-113 and 129-146: the fallback answer when the lookup failed or
      nothing was kept, otherwise the optional rerank, the optional
      explanations and the final `[:top_k]`. The error of the loop propagates. */
  method Finish(query: string, rq: string, kept: Result<seq<Hit>, Error>, topK: int,
                includeExplanations: bool, doRerank: bool,
                rerank: (string, seq<Hit>) -> seq<Hit>,
                fallback: string -> string,
                explain: (string, Hit) -> string)
    returns (r: Result<Response, Error>)
    ensures r.Err? <==> kept.Err?
    ensures r.Err? ==> r.error == kept.error
    ensures r.Ok? ==> r.value.rewrittenQuery == rq
    ensures r.Ok? ==> (r.value.fallback.Some? <==> kept == Ok([]))
    ensures r.Ok? && r.value.fallback.Some? ==> r.value.fallback.value == fallback(query) && r.value.results == []
    ensures r.Ok? && r.value.fallback.None? ==>
      r.value.results == Slice(Ranked(rq, kept.value, doRerank, includeExplanations, rerank, explain), topK)
    ensures r.Ok? && topK >= 0 ==> |r.value.results| <= topK
  {
    if kept.Err? {
      return Err(kept.error);
    }
    var results := kept.value;
    if results == [] {
      return Ok(Response(rq, [], Some(fallback(query))));
    }
    if doRerank {
      results := rerank(rq, results);
    }
    if includeExplanations {
      results := ExplainAll(rq, results, explain);
    }
    r := Ok(Response(rq, Slice(results, topK), None));
  }

  /** `search(query, top_k, include_explanations=..., do_rerank=...)` with the
      external services as parameters: `rewrite` (rewrite_query), `nearest`
      (embedding of the normalised query plus FAISS search for `k` neighbours;
      `None` when the FAISS search raises), `rerank`, `fallback` (generate_fallback) and
      `explain` (explain_reasoning). */
  method Search(query: string, topK: int, includeExplanations: bool, doRerank: bool, meta: seq<Record>,
                rewrite: string -> string,
                nearest: (string, int) -> Option<(seq<int>, seq<real>)>,
                rerank: (string, seq<Hit>) -> seq<Hit>,
                fallback: string -> string,
                explain: (string, Hit) -> string)
    returns (r: Result<Response, Error>)
    ensures var rq := rewrite(query);
      var kept := Collected(meta, nearest(Normalize.Preprocess(rq), topK * 5), ExtractFilters(rq), topK);
      && (r.Err? <==> kept.Err?)
      && (r.Ok? ==> r.value.rewrittenQuery == rq)
      && (r.Ok? ==> (r.value.fallback.Some? <==> kept == Ok([])))
      && (r.Ok? && r.value.fallback.Some? ==> r.value.fallback.value == fallback(query) && r.value.results == [])
      && (r.Ok? && r.value.fallback.None? ==>
            r.value.results == Slice(Ranked(rq, kept.value, doRerank, includeExplanations, rerank, explain), topK))
    ensures r.Ok? && topK >= 0 ==> |r.value.results| <= topK
  {
    var rq := rewrite(query);
    var kept := Retrieve(rq, topK, meta, nearest);
    r := Finish(query, rq, kept, topK, includeExplanations, doRerank, rerank, fallback, explain);
  }

  // ---- what a search returns ----

  /** Without a rerank, every returned result carries its score and has lost
      "Decoded Test Type(s)" (`GatherKeepsOnlyPassing` says which catalog
      record each one is the kept form of). */
  lemma {:induction false} RankedShape(meta: seq<Record>, pairs: seq<(int, real)>, f: Filters, topK: int,
                                       query: string, includeExplanations: bool,
                                       rerank: (string, seq<Hit>) -> seq<Hit>, explain: (string, Hit) -> string)
    requires Gather(meta, pairs, Passes(f), topK).Ok?
    ensures var out := Ranked(query, Gather(meta, pairs, Passes(f), topK).value, false, includeExplanations, rerank, explain);
      forall h :: h in out ==> TestTypesKey !in h && ScoreKey in h
  {
    var kept := Gather(meta, pairs, Passes(f), topK).value;
    GatherKeepsOnlyPassing(meta, pairs, Passes(f), topK);
    forall h | h in kept
      ensures TestTypesKey !in h && ScoreKey in h
    {
      var i :| 0 <= i < |pairs| && -|meta| <= pairs[i].0 < |meta| && h == Kept(meta[Position(|meta|, pairs[i].0)], pairs[i].1);
    }
    if includeExplanations {
      var out := Explained(query, kept, explain);
      forall h | h in out
        ensures TestTypesKey !in h && ScoreKey in h
      {
        var i :| 0 <= i < |out| && out[i] == h;
        assert kept[i] in kept;
      }
    }
  }

  /** Without a rerank and with `top_k >= 1`, the final `[:top_k]` changes
      nothing: the loop already stopped at `top_k`. */
  lemma FinalSliceRedundant(meta: seq<Record>, pairs: seq<(int, real)>, keep: Record -> bool, topK: int)
    requires topK >= 1 && Gather(meta, pairs, keep, topK).Ok?
    ensures Slice(Gather(meta, pairs, keep, topK).value, topK) == Gather(meta, pairs, keep, topK).value
  {
    GatherAtMost(meta, pairs, keep, topK);
  }
}
