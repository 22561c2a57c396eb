/** The bias-controlled recommender `recommend_articles_bias_controlled`
    (backend/models/recommendation_function.py, lines 48-98): locate the source
    article, take an adaptive date window around it, ask a nearest-neighbour
    index for the rows most similar to it, and pass them through the diversity
    quotas, the outlet cap and a final cut to `top_n`.

    The TF-IDF vectors and the cosine nearest-neighbour search are not
    modelled; the search is the parameter `knn`: given the window, the
    position of the query row in it and the neighbour count, it returns
    window positions ordered by increasing distance. */
module Recommender {
  import opened Sequences
  import opened Articles
  import opened Wrappers
  import opened Fairness
  import opened Diversity
  import opened TimeWindow

  const DEFAULT_PRIMARY_WEIGHT: int := 2
  const DEFAULT_TOP_N: int := 5
  const DEFAULT_BASE_DAYS_WINDOW: int := 5
  const DEFAULT_MAX_DAYS_WINDOW: int := 10

  /** Which return statement produced the rows: the small-window fallback of
      line 69, the empty frame of line 81, or the ranked result of line 98. */
  datatype Path = Degraded | SourceMissingFromWindow | Ranked

  datatype Recommendation = Recommendation(path: Path, rows: seq<Article>)

  /** The position of the first row carrying `id` (the first `True` of the
      mask `df["id"] == id`), if any. */
  function FirstIndexOfId(s: seq<Article>, id: int): (r: Option<nat>)
    ensures r.Some? ==> r.value < |s| && s[r.value].id == id
    ensures r.Some? ==> forall j :: 0 <= j < r.value ==> s[j].id != id
    ensures r.None? <==> forall j :: 0 <= j < |s| ==> s[j].id != id
    decreases |s|
  {
    if |s| == 0 then None
    else if s[0].id == id then Some(0)
    else match FirstIndexOfId(s[1..], id)
      case None => None
      case Some(j) => Some(j + 1)
  }

  /** `indices[0][1:top_n * 3]`: Python's slice from 1 to `stop`, clipped to
      the list, for `stop >= 1`. That is the only case `Recommend` reaches,
      since it fails first unless `min(3 * top_n, rows) >= 1`; for `stop <= 0`
      this gives `[]` where Python would count `stop` from the end. */
  function NeighbourSlice(indices: seq<int>, stop: int): (r: seq<int>)
    ensures |indices| >= 1 && stop >= 1 ==> r == indices[1..Max(1, Min(stop, |indices|))]
    ensures |r| <= |indices| && |r| <= Max(stop - 1, 0)
  {
    if |indices| <= 1 || stop <= 1 then []
    else indices[1..Min(stop, |indices|)]
  }

  /** Every position lies inside a frame of `n` rows, as `iloc` demands. */
  predicate AllPositions(positions: seq<int>, n: int)
  {
    forall i :: 0 <= i < |positions| ==> 0 <= positions[i] < n
  }

  /** `window.iloc[positions]`. */
  function Rows(window: seq<Article>, positions: seq<int>): (r: seq<Article>)
    requires AllPositions(positions, |window|)
    ensures |r| == |positions|
    ensures forall i :: 0 <= i < |r| ==> r[i] == window[positions[i]]
  {
    seq(|positions|, i requires 0 <= i < |positions| => window[positions[i]])
  }

  /** The whole pipeline, as a function of the corpus, the request and the
      neighbour search. */
  function Recommend(corpus: seq<Article>, articleId: int, primaryWeight: int, topN: int,
                     baseDaysWindow: int, maxDaysWindow: int,
                     knn: (seq<Article>, nat, int) -> seq<int>): Result<Recommendation, PipelineError>
  {
    match FirstIndexOfId(corpus, articleId)
    case None => Failure(SourceNotFound)
    case Some(s) =>
      var reference := corpus[s].day;
      var window := WindowAt(corpus, reference, Widen(corpus, reference, baseDaysWindow, maxDaysWindow, topN * 3));
      if |window| < topN then Success(Recommendation(Degraded, PyHead(window, topN)))
      else
        var k := Min(topN * 3, |window|);
        if k <= 0 then Failure(NonPositiveNeighbourCount)
        else match FirstIndexOfId(window, articleId)
          case None => Success(Recommendation(SourceMissingFromWindow, []))
          case Some(q) =>
            var chosen := NeighbourSlice(knn(window, q, k), topN * 3);
            if !AllPositions(chosen, |window|) then Failure(NeighbourOutOfRange)
            else match Diversify(Rows(window, chosen), primaryWeight, topN)
              case Failure(e) => Failure(e)
              case Success(diverse) =>
                Success(Recommendation(Ranked, PyHead(Capped(diverse, MAX_PER_OUTLET), topN)))
  }

  /** `recommend_articles_bias_controlled` (lines 48-98). */
  method RecommendArticlesBiasControlled(corpus: seq<Article>, articleId: int, primaryWeight: int, topN: int,
                                         baseDaysWindow: int, maxDaysWindow: int,
                                         knn: (seq<Article>, nat, int) -> seq<int>)
    returns (r: Result<Recommendation, PipelineError>)
    ensures r == Recommend(corpus, articleId, primaryWeight, topN, baseDaysWindow, maxDaysWindow, knn)
  {
    var source := FirstIndexOfId(corpus, articleId);
    if source.None? {
      return Failure(SourceNotFound);
    }
    var reference := corpus[source.value].day;
    var window, halfWidth := SelectWindow(corpus, reference, baseDaysWindow, maxDaysWindow, topN * 3);
    if |window| < topN {
      return Success(Recommendation(Degraded, PyHead(window, topN)));
    }
    var k := Min(topN * 3, |window|);
    if k <= 0 {
      return Failure(NonPositiveNeighbourCount);
    }
    var query := FirstIndexOfId(window, articleId);
    if query.None? {
      return Success(Recommendation(SourceMissingFromWindow, []));
    }
    var chosen := NeighbourSlice(knn(window, query.value, k), topN * 3);
    if !AllPositions(chosen, |window|) {
      return Failure(NeighbourOutOfRange);
    }
    var diverse := EnforcePoliticalDiversity(Rows(window, chosen), primaryWeight, topN);
    if diverse.Failure? {
      return Failure(diverse.error);
    }
    var balanced := FairnessReRanking(diverse.value, MAX_PER_OUTLET);
    r := Success(Recommendation(Ranked, PyHead(balanced, topN)));
  }

  // ---------------------------------------------------------------------
  // Properties of the pipeline

  /** A missing source article is an error. */
  lemma UnknownSourceFails(corpus: seq<Article>, articleId: int, primaryWeight: int, topN: int,
                           baseDaysWindow: int, maxDaysWindow: int,
                           knn: (seq<Article>, nat, int) -> seq<int>)
    requires forall i :: 0 <= i < |corpus| ==> corpus[i].id != articleId
    ensures Recommend(corpus, articleId, primaryWeight, topN, baseDaysWindow, maxDaysWindow, knn)
         == Failure(SourceNotFound)
  {
  }

  /** Never more than `top_n` rows. */
  lemma RecommendBounded(corpus: seq<Article>, articleId: int, primaryWeight: int, topN: int,
                         baseDaysWindow: int, maxDaysWindow: int,
                         knn: (seq<Article>, nat, int) -> seq<int>)
    ensures var r := Recommend(corpus, articleId, primaryWeight, topN, baseDaysWindow, maxDaysWindow, knn);
            r.Success? ==> |r.value.rows| <= topN
  {
  }

  /** A corpus smaller than `top_n` always takes the fallback and returns the
      whole date window. */
  lemma SmallCorpusDegrades(corpus: seq<Article>, articleId: int, primaryWeight: int, topN: int,
                            baseDaysWindow: int, maxDaysWindow: int,
                            knn: (seq<Article>, nat, int) -> seq<int>)
    requires |corpus| < topN
    requires exists i :: 0 <= i < |corpus| && corpus[i].id == articleId
    ensures var r := Recommend(corpus, articleId, primaryWeight, topN, baseDaysWindow, maxDaysWindow, knn);
            && r.Success? && r.value.path == Degraded
            && (forall x :: x in r.value.rows ==> x in corpus)
            && exists w :: r.value.rows == WindowAt(corpus, corpus[FirstIndexOfId(corpus, articleId).value].day, w)
  {
    var s := FirstIndexOfId(corpus, articleId).value;
    var reference := corpus[s].day;
    var w := Widen(corpus, reference, baseDaysWindow, maxDaysWindow, topN * 3);
    var window := WindowAt(corpus, reference, w);
    WindowMembers(corpus, reference, w);
    assert PyHead(window, topN) == window;
  }

  /** The fallback returns the whole final date window unranked, in corpus
      order; with a non-negative base window that includes the source
      article itself. */
  lemma DegradedReturnsWindow(corpus: seq<Article>, articleId: int, primaryWeight: int, topN: int,
                              baseDaysWindow: int, maxDaysWindow: int,
                              knn: (seq<Article>, nat, int) -> seq<int>)
    ensures var r := Recommend(corpus, articleId, primaryWeight, topN, baseDaysWindow, maxDaysWindow, knn);
            r.Success? && r.value.path == Degraded ==>
              var s := FirstIndexOfId(corpus, articleId).value;
              var reference := corpus[s].day;
              && r.value.rows == WindowAt(corpus, reference, Widen(corpus, reference, baseDaysWindow, maxDaysWindow, topN * 3))
              && |r.value.rows| < topN
              && (baseDaysWindow >= 0 ==> corpus[s] in r.value.rows)
  {
    var r := Recommend(corpus, articleId, primaryWeight, topN, baseDaysWindow, maxDaysWindow, knn);
    if r.Success? && r.value.path == Degraded {
      var s := FirstIndexOfId(corpus, articleId).value;
      var reference := corpus[s].day;
      var w := Widen(corpus, reference, baseDaysWindow, maxDaysWindow, topN * 3);
      WidenCharacterized(corpus, reference, baseDaysWindow, maxDaysWindow, topN * 3);
      if baseDaysWindow >= 0 {
        ReferenceRowInWindow(corpus, reference, w, s);
      }
    }
  }

  /** The ranked result obeys the outlet cap: at most two rows per outlet. */
  lemma RankedOutletCap(corpus: seq<Article>, articleId: int, primaryWeight: int, topN: int,
                        baseDaysWindow: int, maxDaysWindow: int,
                        knn: (seq<Article>, nat, int) -> seq<int>, o: string)
    ensures var r := Recommend(corpus, articleId, primaryWeight, topN, baseDaysWindow, maxDaysWindow, knn);
            r.Success? && r.value.path == Ranked ==> OutletCount(r.value.rows, o) <= MAX_PER_OUTLET
  {
    var r := Recommend(corpus, articleId, primaryWeight, topN, baseDaysWindow, maxDaysWindow, knn);
    if r.Success? && r.value.path == Ranked {
      var s := FirstIndexOfId(corpus, articleId).value;
      var reference := corpus[s].day;
      var window := WindowAt(corpus, reference, Widen(corpus, reference, baseDaysWindow, maxDaysWindow, topN * 3));
      var q := FirstIndexOfId(window, articleId).value;
      var chosen := NeighbourSlice(knn(window, q, Min(topN * 3, |window|)), topN * 3);
      var diverse := Diversify(Rows(window, chosen), primaryWeight, topN).value;
      var capped := Capped(diverse, MAX_PER_OUTLET);
      CappedRespectsCap(diverse, MAX_PER_OUTLET, o);
      OutletCountPrefix(capped, |r.value.rows|, o);
    }
  }

  /** Every returned row is a corpus row published within the final window
      around the source article's date, and at most `max_days_window` days
      away from it when the base window does not exceed the maximum. */
  lemma RowsFromWindow(corpus: seq<Article>, articleId: int, primaryWeight: int, topN: int,
                       baseDaysWindow: int, maxDaysWindow: int,
                       knn: (seq<Article>, nat, int) -> seq<int>)
    ensures var r := Recommend(corpus, articleId, primaryWeight, topN, baseDaysWindow, maxDaysWindow, knn);
            r.Success? ==>
              var reference := corpus[FirstIndexOfId(corpus, articleId).value].day;
              forall x :: x in r.value.rows ==>
                && x in corpus
                && reference - Max(baseDaysWindow, maxDaysWindow) <= x.day <= reference + Max(baseDaysWindow, maxDaysWindow)
  {
    var r := Recommend(corpus, articleId, primaryWeight, topN, baseDaysWindow, maxDaysWindow, knn);
    if r.Success? {
      var s := FirstIndexOfId(corpus, articleId).value;
      var reference := corpus[s].day;
      var w := Widen(corpus, reference, baseDaysWindow, maxDaysWindow, topN * 3);
      RowsInWindow(corpus, articleId, primaryWeight, topN, baseDaysWindow, maxDaysWindow, knn);
      WindowWithinBounds(corpus, reference, baseDaysWindow, maxDaysWindow, topN * 3);
    }
  }

  /** Every row of the final window is a corpus row at most
      `max(base_days_window, max_days_window)` days from the reference date. */
  lemma WindowWithinBounds(corpus: seq<Article>, reference: int, baseDaysWindow: int, maxDaysWindow: int, needed: int)
    ensures var w := Widen(corpus, reference, baseDaysWindow, maxDaysWindow, needed);
            forall x :: x in WindowAt(corpus, reference, w) ==>
              && x in corpus
              && reference - Max(baseDaysWindow, maxDaysWindow) <= x.day <= reference + Max(baseDaysWindow, maxDaysWindow)
  {
    var w := Widen(corpus, reference, baseDaysWindow, maxDaysWindow, needed);
    WidenCharacterized(corpus, reference, baseDaysWindow, maxDaysWindow, needed);
    WindowMembers(corpus, reference, w);
  }

  /** Every returned row is a row of the final window. */
  lemma RowsInWindow(corpus: seq<Article>, articleId: int, primaryWeight: int, topN: int,
                     baseDaysWindow: int, maxDaysWindow: int,
                     knn: (seq<Article>, nat, int) -> seq<int>)
    ensures var r := Recommend(corpus, articleId, primaryWeight, topN, baseDaysWindow, maxDaysWindow, knn);
            r.Success? ==>
              var reference := corpus[FirstIndexOfId(corpus, articleId).value].day;
              var window := WindowAt(corpus, reference, Widen(corpus, reference, baseDaysWindow, maxDaysWindow, topN * 3));
              forall x :: x in r.value.rows ==> x in window
  {
    var r := Recommend(corpus, articleId, primaryWeight, topN, baseDaysWindow, maxDaysWindow, knn);
    if r.Success? && r.value.path == Ranked {
      var s := FirstIndexOfId(corpus, articleId).value;
      var reference := corpus[s].day;
      var window := WindowAt(corpus, reference, Widen(corpus, reference, baseDaysWindow, maxDaysWindow, topN * 3));
      var q := FirstIndexOfId(window, articleId).value;
      var chosen := NeighbourSlice(knn(window, q, Min(topN * 3, |window|)), topN * 3);
      var cands := Rows(window, chosen);
      RankedRowsFromCandidates(cands, primaryWeight, topN, r.value.rows);
      forall x | x in cands ensures x in window {
        var i :| 0 <= i < |cands| && cands[i] == x;
      }
    }
  }

  /** The ranked rows are candidate rows: the quotas, the cap and the cut only select. */
  lemma RankedRowsFromCandidates(cands: seq<Article>, primaryWeight: int, topN: int, rows: seq<Article>)
    requires Diversify(cands, primaryWeight, topN).Success?
    requires rows == PyHead(Capped(Diversify(cands, primaryWeight, topN).value, MAX_PER_OUTLET), topN)
    ensures forall x :: x in rows ==> x in cands
  {
    var diverse := Diversify(cands, primaryWeight, topN).value;
    var capped := Capped(diverse, MAX_PER_OUTLET);
    DiversifyRows(cands, primaryWeight, topN);
    CappedIsSubsequence(diverse, MAX_PER_OUTLET);
    SubsequenceMembers(capped, diverse);
    PrefixIsSubsequence(capped, |rows|);
    SubsequenceMembers(rows, capped);
  }

  /** The neighbour search behaves as a nearest-neighbour query should: it
      returns `k` distinct window positions, the query row itself first. */
  predicate WellBehavedSearch(window: seq<Article>, query: nat, k: int, positions: seq<int>)
  {
    && |positions| == k
    && AllPositions(positions, |window|)
    && |positions| > 0 && positions[0] == query
    && (forall i, j :: 0 <= i < j < |positions| ==> positions[i] != positions[j])
  }

  /** With distinct corpus ids and a well-behaved search, the source article
      is never recommended to itself. */
  lemma SourceNotRecommended(corpus: seq<Article>, articleId: int, primaryWeight: int, topN: int,
                             baseDaysWindow: int, maxDaysWindow: int,
                             knn: (seq<Article>, nat, int) -> seq<int>)
    requires UniqueIds(corpus)
    requires forall window: seq<Article>, query: nat, k: int ::
               query < |window| && 0 < k <= |window| ==> WellBehavedSearch(window, query, k, knn(window, query, k))
    ensures var r := Recommend(corpus, articleId, primaryWeight, topN, baseDaysWindow, maxDaysWindow, knn);
            r.Success? && r.value.path == Ranked ==> forall x :: x in r.value.rows ==> x.id != articleId
  {
    var r := Recommend(corpus, articleId, primaryWeight, topN, baseDaysWindow, maxDaysWindow, knn);
    if r.Success? && r.value.path == Ranked {
      var s := FirstIndexOfId(corpus, articleId).value;
      var reference := corpus[s].day;
      var w := Widen(corpus, reference, baseDaysWindow, maxDaysWindow, topN * 3);
      var window := WindowAt(corpus, reference, w);
      var q := FirstIndexOfId(window, articleId).value;
      var k := Min(topN * 3, |window|);
      var positions := knn(window, q, k);
      assert WellBehavedSearch(window, q, k, positions);
      var chosen := NeighbourSlice(positions, topN * 3);
      var cands := Rows(window, chosen);
      FilterIsSubsequence(corpus, Within(reference, w));
      UniqueIdsSubsequence(window, corpus);
      forall i | 0 <= i < |cands| ensures cands[i].id != articleId {
        assert chosen[i] == positions[i + 1];
        assert positions[i + 1] != positions[0];
        assert window[chosen[i]].id != window[q].id;
      }
      RankedRowsFromCandidates(cands, primaryWeight, topN, r.value.rows);
    }
  }

  /** With a non-negative base window, at least two results asked for and a
      search that answers with `k` in-range positions, the pipeline does not
      fail and returns at least one row from the ranked path whenever the
      window holds `top_n` rows. */
  lemma RankedPathSucceeds(corpus: seq<Article>, articleId: int, primaryWeight: int, topN: int,
                           baseDaysWindow: int, maxDaysWindow: int,
                           knn: (seq<Article>, nat, int) -> seq<int>)
    requires exists i :: 0 <= i < |corpus| && corpus[i].id == articleId
    requires baseDaysWindow >= 0 && topN >= 2
    requires forall window: seq<Article>, query: nat, k: int ::
               query < |window| && 0 < k <= |window| ==>
                 |knn(window, query, k)| == k && AllPositions(knn(window, query, k), |window|)
    ensures var r := Recommend(corpus, articleId, primaryWeight, topN, baseDaysWindow, maxDaysWindow, knn);
            && r.Success?
            && r.value.path != SourceMissingFromWindow
            && (r.value.path == Ranked ==> |r.value.rows| >= 1)
  {
    var s := FirstIndexOfId(corpus, articleId).value;
    var reference := corpus[s].day;
    var w := Widen(corpus, reference, baseDaysWindow, maxDaysWindow, topN * 3);
    WidenCharacterized(corpus, reference, baseDaysWindow, maxDaysWindow, topN * 3);
    var window := WindowAt(corpus, reference, w);
    if |window| >= topN {
      ReferenceRowInWindow(corpus, reference, w, s);
      var i :| 0 <= i < |window| && window[i] == corpus[s];
      assert FirstIndexOfId(window, articleId).Some?;
      var q := FirstIndexOfId(window, articleId).value;
      var k := Min(topN * 3, |window|);
      var chosen := NeighbourSlice(knn(window, q, k), topN * 3);
      assert |chosen| == k - 1;
      var cands := Rows(window, chosen);
      DiversifyNonEmpty(cands, primaryWeight, topN);
      var diverse := Diversify(cands, primaryWeight, topN).value;
      CappedHeadNonEmpty(diverse);
    }
  }

  /** The outlet cap always keeps the first row. */
  lemma CappedHeadNonEmpty(s: seq<Article>)
    requires |s| > 0
    ensures |Capped(s, MAX_PER_OUTLET)| > 0
  {
    CappedDropRule(s, MAX_PER_OUTLET, 0);
    assert s[..0] == [];
    assert s[..1] == [s[0]];
    var t := Capped(s, MAX_PER_OUTLET);
    CappedIsSubsequence(s, MAX_PER_OUTLET);
    CappedPrefixKept(s, 1);
  }

  lemma {:induction false} CappedPrefixKept(s: seq<Article>, k: nat)
    requires k <= |s|
    ensures |Capped(s[..k], MAX_PER_OUTLET)| <= |Capped(s, MAX_PER_OUTLET)|
    decreases |s| - k
  {
    if k < |s| {
      var p, x := s[..k], s[k];
      assert s[..k + 1] == p + [x];
      CappedGrows(p, x);
      CappedPrefixKept(s, k + 1);
    } else {
      assert s[..k] == s;
    }
  }

  /** One more row never shrinks the capped list. */
  lemma CappedGrows(t: seq<Article>, x: Article)
    ensures |Capped(t, MAX_PER_OUTLET)| <= |Capped(t + [x], MAX_PER_OUTLET)|
  {
    CappedAppend(t, x, MAX_PER_OUTLET);
  }
}
