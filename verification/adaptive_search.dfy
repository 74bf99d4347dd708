/** Permission-filtered nearest-neighbour search with geometric candidate
    expansion (internal/storage/sqlite_vector_store.go, `SearchSimilarWithFilter`,
    `searchWithFilterRecursive`, `applyFilter`).

    The KNN primitive `searchWithSqliteVec` is a parameter `knn`: given `k` it
    either fails or returns candidates nearest first. The lemmas at the end
    assume the ideal primitive, `knn(k) == Ok(Take(ranked, k))` for a fixed
    ranking of the corpus. */
module AdaptiveSearch {
  import opened Wrappers
  import opened Seqs

  const InitialMultiplier: int := 2
  const GrowthFactor: int := 2
  const MaxAttempts: nat := 10

  function Pow2(n: nat): (r: int)
    ensures r >= 1
  {
    if n == 0 then 1 else 2 * Pow2(n - 1)
  }

  /** `x` doubled `n` times, i.e. `x * 2^n`, written without multiplying
      unknowns so that the schedule stays in linear arithmetic. */
  function Doubled(x: int, n: nat): int
  {
    if n == 0 then x else 2 * Doubled(x, n - 1)
  }

  lemma {:induction false} DoubledShift(x: int, n: nat)
    ensures Doubled(2 * x, n) == Doubled(x, n + 1)
  {
    if n > 0 {
      DoubledShift(x, n - 1);
    }
  }

  lemma {:induction false} DoubledIsProduct(x: int, n: nat)
    ensures Doubled(x, n) == x * Pow2(n)
  {
    if n > 0 {
      DoubledIsProduct(x, n - 1);
      assert x * Pow2(n) == x * (2 * Pow2(n - 1)) == 2 * (x * Pow2(n - 1));
    }
  }

  lemma ScaleDouble(topK: int, multiplier: int)
    ensures topK * (multiplier * GrowthFactor) == 2 * (topK * multiplier)
  {
  }

  lemma PositiveProduct(a: int, b: int)
    requires a >= 1 && b >= 1
    ensures a * b >= 1
  {
  }

  /** The schedule of the next attempt, preceded by this attempt's query, is
      this attempt's schedule. */
  lemma ShiftSchedule(topK: int, multiplier: int, next: seq<int>)
    requires forall j :: 0 <= j < |next| ==> next[j] == Doubled(topK * (multiplier * GrowthFactor), j)
    ensures forall i :: 0 <= i <= |next| ==> ([topK * multiplier] + next)[i] == Doubled(topK * multiplier, i)
  {
    var k := topK * multiplier;
    ScaleDouble(topK, multiplier);
    forall i | 0 <= i <= |next|
      ensures ([k] + next)[i] == Doubled(k, i)
    {
      if i > 0 {
        DoubledShift(k, i - 1);
      }
    }
  }

  /** The outcome of a search together with the `k` of every KNN query it
      issued, in order. */
  datatype Trace<D> = Trace(outcome: Result<seq<D>, string>, requests: seq<int>)

  /** The loop of `applyFilter` from candidate `c[0]` on, with `acc` already
      collected: append each passing candidate, and stop as soon as at least
      `topK` have been collected. */
  function ApplyFilterFrom<D>(c: seq<D>, topK: int, filter: D -> bool, acc: seq<D>): seq<D>
    decreases |c|
  {
    if |c| == 0 then acc
    else if filter(c[0]) then
      var acc' := acc + [c[0]];
      if |acc'| >= topK then acc' else ApplyFilterFrom(c[1..], topK, filter, acc')
    else ApplyFilterFrom(c[1..], topK, filter, acc)
  }

  /** How many passing candidates `applyFilter` can return: `topK`, except
      that a non-positive `topK` still lets one through, because the
      length test follows the append. */
  function Quota(topK: int): (q: int)
    ensures q >= 1
  {
    if topK <= 0 then 1 else topK
  }

  lemma {:induction false} ApplyFilterFromIsTake<D>(c: seq<D>, topK: int, filter: D -> bool, acc: seq<D>)
    requires |acc| < Quota(topK)
    ensures ApplyFilterFrom(c, topK, filter, acc) == acc + Take(Filter(c, filter), Quota(topK) - |acc|)
    decreases |c|
  {
    var n := Quota(topK) - |acc|;
    if |c| == 0 {
    } else if filter(c[0]) {
      assert Filter(c, filter) == [c[0]] + Filter(c[1..], filter);
      var acc' := acc + [c[0]];
      if |acc'| >= topK {
        assert n == 1;
        assert Take(Filter(c, filter), n) == [c[0]];
      } else {
        ApplyFilterFromIsTake(c[1..], topK, filter, acc');
        assert Take(Filter(c, filter), n) == [c[0]] + Take(Filter(c[1..], filter), n - 1);
      }
    } else {
      assert Filter(c, filter) == Filter(c[1..], filter);
      ApplyFilterFromIsTake(c[1..], topK, filter, acc);
    }
  }

  /** `applyFilter`: the first `Quota(topK)` candidates that pass, in
      candidate order. */
  function ApplyFilter<D>(candidates: seq<D>, topK: int, filter: D -> bool): (r: seq<D>)
    ensures r == Take(Filter(candidates, filter), Quota(topK))
    ensures r <= Filter(candidates, filter)
    ensures forall i :: 0 <= i < |r| ==> filter(r[i])
    ensures |r| <= Quota(topK)
  {
    ApplyFilterFromIsTake(candidates, topK, filter, []);
    ApplyFilterFrom(candidates, topK, filter, [])
  }

  /** `t` is what a search that issued the queries `t.requests` against
      `knn` returns: every query but the last was answered, a failed last
      query's error is the search's error, and otherwise the result is
      `applyFilter` of the last query's candidates, whatever `knn` returned. */
  ghost predicate Answers<D>(knn: int -> Result<seq<D>, string>, topK: int, filter: D -> bool, t: Trace<D>) {
    && |t.requests| >= 1
    && (forall i :: 0 <= i < |t.requests| - 1 ==> knn(t.requests[i]).Ok?)
    && match knn(t.requests[|t.requests| - 1])
       case Err(e) => t.outcome == Err(e)
       case Ok(c) => t.outcome == Ok(ApplyFilter(c, topK, filter))
  }

  /** `searchWithFilterRecursive`. At or beyond the attempt ceiling, one last
      query with the current multiplier is filtered and returned whatever its
      size. Before it, the search returns when enough candidates passed or
      the KNN query came back short (the corpus is exhausted), and otherwise
      doubles the multiplier. A failed query ends the search with its error. */
  function SearchRec<D>(knn: int -> Result<seq<D>, string>, topK: int, filter: D -> bool,
                        multiplier: int, attempt: nat): (t: Trace<D>)
    requires attempt <= MaxAttempts
    ensures 1 <= |t.requests| <= MaxAttempts - attempt + 1
    ensures t.requests[0] == topK * multiplier
    ensures Answers(knn, topK, filter, t)
    ensures t.outcome.Ok? ==> |t.outcome.value| <= Quota(topK)
    ensures t.outcome.Ok? ==> forall i :: 0 <= i < |t.outcome.value| ==> filter(t.outcome.value[i])
    decreases MaxAttempts - attempt
  {
    var candidateCount := topK * multiplier;
    if attempt >= MaxAttempts then
      match knn(candidateCount)
      case Err(e) => Trace(Err(e), [candidateCount])
      case Ok(candidates) => Trace(Ok(ApplyFilter(candidates, topK, filter)), [candidateCount])
    else
      match knn(candidateCount)
      case Err(e) => Trace(Err(e), [candidateCount])
      case Ok(candidates) =>
        var filtered := ApplyFilter(candidates, topK, filter);
        if |filtered| >= topK || |candidates| < candidateCount then
          Trace(Ok(filtered), [candidateCount])
        else
          var rest := SearchRec(knn, topK, filter, multiplier * GrowthFactor, attempt + 1);
          Trace(rest.outcome, [candidateCount] + rest.requests)
  }

  /** `SearchSimilarWithFilter`: at most eleven KNN queries, the first
      asking for `2 * topK` candidates and each later one for twice as many
      as the one before. */
  function SearchSimilarWithFilter<D>(knn: int -> Result<seq<D>, string>, topK: int, filter: D -> bool): (t: Trace<D>)
    ensures 1 <= |t.requests| <= MaxAttempts + 1
    ensures forall i :: 0 <= i < |t.requests| ==> t.requests[i] == Doubled(2 * topK, i)
    ensures Answers(knn, topK, filter, t)
    ensures t.outcome.Ok? ==> |t.outcome.value| <= Quota(topK)
    ensures t.outcome.Ok? ==> forall i :: 0 <= i < |t.outcome.value| ==> filter(t.outcome.value[i])
  {
    assert topK * InitialMultiplier == 2 * topK;
    SearchRecSchedule(knn, topK, filter, InitialMultiplier, 0);
    SearchRec(knn, topK, filter, InitialMultiplier, 0)
  }

  lemma Pow2Values()
    ensures Pow2(MaxAttempts) == 1024 && Pow2(MaxAttempts + 1) == 2048
  {
  }

  /** The query schedule in closed form: query `i` (from 0) asks for
      `topK * 2^(i+1)` candidates, so a search that reaches the ceiling ends
      with a query for `topK * 2^11` candidates. */
  lemma QuerySchedule<D>(knn: int -> Result<seq<D>, string>, topK: int, filter: D -> bool)
    ensures var t := SearchSimilarWithFilter(knn, topK, filter);
      && (forall i :: 0 <= i < |t.requests| ==> t.requests[i] == topK * Pow2(i + 1))
      && (|t.requests| == MaxAttempts + 1 ==> t.requests[MaxAttempts] == 2048 * topK)
  {
    var t := SearchSimilarWithFilter(knn, topK, filter);
    forall i | 0 <= i < |t.requests|
      ensures t.requests[i] == topK * Pow2(i + 1)
    {
      DoubledTwice(topK, i);
    }
    if |t.requests| == MaxAttempts + 1 {
      DoubledTwice(topK, MaxAttempts);
      Pow2Values();
    }
  }

  lemma DoubledTwice(topK: int, i: nat)
    ensures Doubled(2 * topK, i) == topK * Pow2(i + 1)
  {
    DoubledShift(topK, i);
    DoubledIsProduct(topK, i + 1);
  }

  /** One attempt of the search that neither fails nor stops hands over to
      the next attempt, with the multiplier doubled. */
  lemma SearchRecContinues<D>(knn: int -> Result<seq<D>, string>, topK: int, filter: D -> bool,
                              multiplier: int, attempt: nat, c: seq<D>)
    requires attempt < MaxAttempts
    requires knn(topK * multiplier) == Ok(c)
    requires |ApplyFilter(c, topK, filter)| < topK && |c| >= topK * multiplier
    ensures var next := SearchRec(knn, topK, filter, multiplier * GrowthFactor, attempt + 1);
      SearchRec(knn, topK, filter, multiplier, attempt) == Trace(next.outcome, [topK * multiplier] + next.requests)
  {
  }

  /** An attempt that stops, or the final attempt, returns its filtered
      candidates. */
  lemma SearchRecStops<D>(knn: int -> Result<seq<D>, string>, topK: int, filter: D -> bool,
                          multiplier: int, attempt: nat, c: seq<D>)
    requires attempt <= MaxAttempts
    requires knn(topK * multiplier) == Ok(c)
    requires attempt == MaxAttempts || |ApplyFilter(c, topK, filter)| >= topK || |c| < topK * multiplier
    ensures SearchRec(knn, topK, filter, multiplier, attempt) == Trace(Ok(ApplyFilter(c, topK, filter)), [topK * multiplier])
  {
  }

  /** The coverage bound of the next attempt is this attempt's. */
  lemma CoverageShift(topK: int, multiplier: int, n: nat)
    ensures Doubled(topK * (multiplier * GrowthFactor), n) == Doubled(topK * multiplier, n + 1)
  {
    ScaleDouble(topK, multiplier);
    DoubledShift(topK * multiplier, n);
  }

  /** Query `i` of `requests` (counting from 0) asks for `k` candidates
      doubled `i` times. */
  ghost predicate Scheduled(requests: seq<int>, k: int) {
    forall i :: 0 <= i < |requests| ==> requests[i] == Doubled(k, i)
  }

  /** Whether the attempt with this multiplier hands over to the next one. */
  predicate Continues<D>(knn: int -> Result<seq<D>, string>, topK: int, filter: D -> bool,
                         multiplier: int, attempt: nat)
  {
    var k := topK * multiplier;
    && attempt < MaxAttempts
    && knn(k).Ok?
    && |ApplyFilter(knn(k).value, topK, filter)| < topK
    && |knn(k).value| >= k
  }

  /** An attempt that does not hand over issues a single query. */
  lemma ScheduleHere<D>(knn: int -> Result<seq<D>, string>, topK: int, filter: D -> bool,
                        multiplier: int, attempt: nat)
    requires attempt <= MaxAttempts
    requires !Continues(knn, topK, filter, multiplier, attempt)
    ensures Scheduled(SearchRec(knn, topK, filter, multiplier, attempt).requests, topK * multiplier)
  {
  }

  /** An attempt that hands over prefixes its query to the next attempt's. */
  lemma ScheduleLater<D>(knn: int -> Result<seq<D>, string>, topK: int, filter: D -> bool,
                         multiplier: int, attempt: nat)
    requires attempt <= MaxAttempts
    requires Continues(knn, topK, filter, multiplier, attempt)
    requires Scheduled(SearchRec(knn, topK, filter, multiplier * GrowthFactor, attempt + 1).requests,
                       topK * (multiplier * GrowthFactor))
    ensures Scheduled(SearchRec(knn, topK, filter, multiplier, attempt).requests, topK * multiplier)
  {
    var next := SearchRec(knn, topK, filter, multiplier * GrowthFactor, attempt + 1);
    SearchRecContinues(knn, topK, filter, multiplier, attempt, knn(topK * multiplier).value);
    ShiftSchedule(topK, multiplier, next.requests);
  }

  /** The search's query schedule: each query asks for twice as many
      candidates as the one before, starting from `topK * multiplier`. */
  lemma {:induction false} SearchRecSchedule<D>(knn: int -> Result<seq<D>, string>, topK: int, filter: D -> bool,
                                                multiplier: int, attempt: nat)
    requires attempt <= MaxAttempts
    ensures Scheduled(SearchRec(knn, topK, filter, multiplier, attempt).requests, topK * multiplier)
    decreases MaxAttempts - attempt
  {
    if Continues(knn, topK, filter, multiplier, attempt) {
      SearchRecSchedule(knn, topK, filter, multiplier * GrowthFactor, attempt + 1);
      ScheduleLater(knn, topK, filter, multiplier, attempt);
    } else {
      ScheduleHere(knn, topK, filter, multiplier, attempt);
    }
  }

  // ----- the search against an ideal KNN primitive -----

  /** `knn` answers every query with the nearest `k` elements of `ranked`. */
  ghost predicate RankedKnn<D>(knn: int -> Result<seq<D>, string>, ranked: seq<D>) {
    forall k :: knn(k) == Ok(Take(ranked, k))
  }

  /** The stopping test of one attempt, stated on the ranking: at least
      `topK` of the `k` nearest pass, or the corpus has fewer than `k`
      elements. */
  ghost predicate Done<D>(ranked: seq<D>, topK: int, filter: D -> bool, k: int) {
    |Filter(Take(ranked, k), filter)| >= topK || |ranked| < k
  }

  /** A trace of a search started at `attempt` stops exactly when done:
      it succeeded, every query but the last was answered without meeting
      the stopping test, and the last one met it unless it was the final,
      unconditional query. */
  ghost predicate StopsWhenDone<D>(ranked: seq<D>, topK: int, filter: D -> bool, t: Trace<D>, attempt: nat) {
    && t.outcome.Ok?
    && |t.requests| >= 1
    && (forall i :: 0 <= i < |t.requests| - 1 ==> !Done(ranked, topK, filter, t.requests[i]))
    && (attempt + |t.requests| - 1 < MaxAttempts ==> Done(ranked, topK, filter, t.requests[|t.requests| - 1]))
  }

  /** Prefixing a query that did not meet the stopping test to a trace that
      stops when done gives a trace, one attempt earlier, that stops when
      done. */
  lemma StopsWhenDoneStep<D>(ranked: seq<D>, topK: int, filter: D -> bool, k: int, next: Trace<D>, attempt: nat)
    requires !Done(ranked, topK, filter, k)
    requires StopsWhenDone(ranked, topK, filter, next, attempt + 1)
    ensures StopsWhenDone(ranked, topK, filter, Trace(next.outcome, [k] + next.requests), attempt)
  {
    var t := Trace(next.outcome, [k] + next.requests);
    forall i | 0 <= i < |t.requests| - 1
      ensures !Done(ranked, topK, filter, t.requests[i])
    {
      if i > 0 {
        assert t.requests[i] == next.requests[i - 1];
      }
    }
    assert t.requests[|t.requests| - 1] == next.requests[|next.requests| - 1];
  }

  /** Against an ideal KNN, the attempt's own stopping test is `Done` on
      the ranking; when it is met, or the attempt is the final one, the
      search stops there and then. */
  lemma StopsWhenDoneHere<D>(knn: int -> Result<seq<D>, string>, ranked: seq<D>,
                             topK: int, filter: D -> bool, multiplier: int, attempt: nat)
    requires RankedKnn(knn, ranked)
    requires attempt <= MaxAttempts
    requires attempt == MaxAttempts || Done(ranked, topK, filter, topK * multiplier)
    ensures StopsWhenDone(ranked, topK, filter, SearchRec(knn, topK, filter, multiplier, attempt), attempt)
  {
    var k := topK * multiplier;
    var c := Take(ranked, k);
    assert knn(k) == Ok(c);
    if attempt < MaxAttempts {
      if |Filter(c, filter)| >= topK {
        assert |ApplyFilter(c, topK, filter)| >= topK;
      } else {
        assert |c| < k;
      }
    }
    SearchRecStops(knn, topK, filter, multiplier, attempt, c);
  }

  /** Against an ideal KNN, an attempt before the final one that is not
      `Done` hands over to the next attempt; if that one stops when done,
      so does this one. */
  lemma StopsWhenDoneLater<D>(knn: int -> Result<seq<D>, string>, ranked: seq<D>,
                              topK: int, filter: D -> bool, multiplier: int, attempt: nat)
    requires RankedKnn(knn, ranked)
    requires topK >= 1 && multiplier >= 1
    requires attempt < MaxAttempts
    requires !Done(ranked, topK, filter, topK * multiplier)
    requires StopsWhenDone(ranked, topK, filter, SearchRec(knn, topK, filter, multiplier * GrowthFactor, attempt + 1), attempt + 1)
    ensures StopsWhenDone(ranked, topK, filter, SearchRec(knn, topK, filter, multiplier, attempt), attempt)
  {
    var k := topK * multiplier;
    PositiveProduct(topK, multiplier);
    var c := Take(ranked, k);
    assert knn(k) == Ok(c);
    assert |ApplyFilter(c, topK, filter)| < topK && |c| >= k;
    SearchRecContinues(knn, topK, filter, multiplier, attempt, c);
    StopsWhenDoneStep(ranked, topK, filter, k, SearchRec(knn, topK, filter, multiplier * GrowthFactor, attempt + 1), attempt);
  }

  /** With an ideal KNN and `topK >= 1`, the search never fails and stops
      exactly when done. */
  lemma {:induction false} SearchStopsExactlyWhenDone<D>(knn: int -> Result<seq<D>, string>, ranked: seq<D>,
                                                          topK: int, filter: D -> bool, multiplier: int, attempt: nat)
    requires RankedKnn(knn, ranked)
    requires topK >= 1 && multiplier >= 1
    requires attempt <= MaxAttempts
    ensures StopsWhenDone(ranked, topK, filter, SearchRec(knn, topK, filter, multiplier, attempt), attempt)
    decreases MaxAttempts - attempt
  {
    var k := topK * multiplier;
    if attempt < MaxAttempts && !Done(ranked, topK, filter, k) {
      var next := multiplier * GrowthFactor;
      assert next >= 1;
      SearchStopsExactlyWhenDone(knn, ranked, topK, filter, next, attempt + 1);
      StopsWhenDoneLater(knn, ranked, topK, filter, multiplier, attempt);
    } else {
      StopsWhenDoneHere(knn, ranked, topK, filter, multiplier, attempt);
    }
  }

  /** With an ideal KNN, the result is always a prefix of the filtered
      ranking: nearest first, nothing skipped. */
  lemma {:induction false} SearchResultIsPrefix<D>(knn: int -> Result<seq<D>, string>, ranked: seq<D>,
                                                    topK: int, filter: D -> bool, multiplier: int, attempt: nat)
    requires RankedKnn(knn, ranked)
    requires attempt <= MaxAttempts
    ensures var t := SearchRec(knn, topK, filter, multiplier, attempt);
      t.outcome.Ok? && t.outcome.value <= Filter(ranked, filter)
    decreases MaxAttempts - attempt
  {
    var k := topK * multiplier;
    var c := Take(ranked, k);
    assert knn(k) == Ok(c);
    FilterOfPrefix(ranked, k, filter);
    var filtered := ApplyFilter(c, topK, filter);
    PrefixTransitive(filtered, Filter(c, filter), Filter(ranked, filter));
    if attempt < MaxAttempts && !(|filtered| >= topK || |c| < k) {
      SearchRecContinues(knn, topK, filter, multiplier, attempt, c);
      SearchResultIsPrefix(knn, ranked, topK, filter, multiplier * GrowthFactor, attempt + 1);
    } else {
      SearchRecStops(knn, topK, filter, multiplier, attempt, c);
    }
  }

  /** With an ideal KNN and `topK >= 1`, the search returns exactly the
      `topK` nearest passing elements (or all of them if fewer pass) whenever
      the final query would cover the corpus. */
  lemma {:induction false} SearchCompleteWhenCovered<D>(knn: int -> Result<seq<D>, string>, ranked: seq<D>,
                                                        topK: int, filter: D -> bool, multiplier: int, attempt: nat)
    requires RankedKnn(knn, ranked)
    requires topK >= 1 && multiplier >= 1
    requires attempt <= MaxAttempts
    requires |ranked| <= Doubled(topK * multiplier, MaxAttempts - attempt)
    ensures SearchRec(knn, topK, filter, multiplier, attempt).outcome == Ok(Take(Filter(ranked, filter), topK))
    decreases MaxAttempts - attempt
  {
    var k := topK * multiplier;
    var c := Take(ranked, k);
    assert knn(k) == Ok(c);
    FilterOfPrefix(ranked, k, filter);
    var filtered := ApplyFilter(c, topK, filter);
    if attempt < MaxAttempts && !(|filtered| >= topK || |c| < k) {
      SearchRecContinues(knn, topK, filter, multiplier, attempt, c);
      CoverageShift(topK, multiplier, MaxAttempts - (attempt + 1));
      SearchCompleteWhenCovered(knn, ranked, topK, filter, multiplier * GrowthFactor, attempt + 1);
    } else {
      SearchRecStops(knn, topK, filter, multiplier, attempt, c);
      if |filtered| >= topK {
        TakeOfPrefix(Filter(c, filter), Filter(ranked, filter), topK);
      } else {
        assert c == ranked;
      }
    }
  }

  /** The entry point's guarantees against an ideal KNN: the result is a
      prefix of the filtered ranking, and it is the full top-`topK` of the
      filtered ranking whenever the corpus holds at most `topK * 2^11`
      elements. */
  lemma SearchSimilarWithFilterRanked<D>(knn: int -> Result<seq<D>, string>, ranked: seq<D>, topK: int, filter: D -> bool)
    requires RankedKnn(knn, ranked)
    ensures var t := SearchSimilarWithFilter(knn, topK, filter);
      && t.outcome.Ok?
      && t.outcome.value <= Filter(ranked, filter)
      && (topK >= 1 && |ranked| <= 2048 * topK ==> t.outcome.value == Take(Filter(ranked, filter), topK))
  {
    SearchResultIsPrefix(knn, ranked, topK, filter, InitialMultiplier, 0);
    if topK >= 1 && |ranked| <= 2048 * topK {
      assert topK * InitialMultiplier == 2 * topK;
      DoubledIsProduct(2 * topK, MaxAttempts);
      Pow2Values();
      SearchCompleteWhenCovered(knn, ranked, topK, filter, InitialMultiplier, 0);
    }
  }

  /** Ten documents of which five pass, `topK` 4: exactly four results, all
      passing (the alternating even/odd corpus of the recursive search test). */
  lemma AlternatingCorpusScenario<D>(ranked: seq<D>, filter: D -> bool)
    requires |ranked| == 10 && |Filter(ranked, filter)| == 5
    ensures var t := SearchSimilarWithFilter(k => Ok(Take(ranked, k)), 4, filter);
      t.outcome.Ok? && |t.outcome.value| == 4 && forall i :: 0 <= i < 4 ==> filter(t.outcome.value[i])
  {
    var knn: int -> Result<seq<D>, string> := k => Ok(Take(ranked, k));
    SearchSimilarWithFilterRanked(knn, ranked, 4, filter);
  }

  /** Three documents none of which passes, `topK` 5: the first query of ten
      candidates exhausts the corpus and the search succeeds with no results. */
  lemma NoMatchScenario<D>(ranked: seq<D>, filter: D -> bool)
    requires |ranked| == 3 && Filter(ranked, filter) == []
    ensures SearchSimilarWithFilter(k => Ok(Take(ranked, k)), 5, filter) == Trace(Ok([]), [10])
  {
    var knn: int -> Result<seq<D>, string> := k => Ok(Take(ranked, k));
    assert knn(10) == Ok(ranked);
    assert ApplyFilter(ranked, 5, filter) == [];
  }

  /** An empty corpus: one query, no candidates, no results. */
  lemma EmptyCorpusScenario<D>(topK: int, filter: D -> bool)
    requires topK >= 1
    ensures SearchSimilarWithFilter(k => Ok(Take([], k)), topK, filter) == Trace(Ok([]), [topK * 2])
  {
    var knn: int -> Result<seq<D>, string> := k => Ok(Take([], k));
    assert knn(topK * 2) == Ok([]);
  }
}
