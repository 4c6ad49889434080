/**
 * `recommend` (backend/app.py) end to end: pre-filtering, title resolution, hybrid retrieval,
 * fusion, ordering, the optional restrictions and sorts, truncation to `top_n` and reranking.
 */
module Pipeline {
  import opened Wrappers
  import opened PyStr
  import OD = OrderedDict
  import opened Records
  import opened Lists
  import opened HybridSearch
  import opened Ranking

  /** Every hit is at a filtered position. */
  predicate HitsFiltered(hs: seq<(int, real)>, ix: seq<int>)
  {
    forall i :: 0 <= i < |hs| ==> hs[i].0 in ix
  }

  /** Hits at filtered positions index the corpus. */
  lemma HitsInCorpus(hs: seq<(int, real)>, ix: seq<int>, size: nat)
    requires PositionsIn(ix, size) && HitsFiltered(hs, ix)
    ensures InCorpus(hs, size)
  {
    forall i | 0 <= i < |hs| ensures 0 <= hs[i].0 < size {
      var k :| 0 <= k < |ix| && ix[k] == hs[i].0;
    }
  }

  /** The vector hits of stage 4.2 for the resolved query. */
  function VectorStage(size: nat, ix: seq<int>, query: string, p: Params, o: Oracles): seq<(int, real)>
  {
    VectorHits(o.search(query, SearchK(|ix|, size)), size, ix, p.topN)
  }

  /** The lexical hits of stage 4.3 for the resolved query. */
  function LexicalStage(ix: seq<int>, query: string, p: Params, o: Oracles): seq<(int, real)>
  {
    LexicalHits(query, ix, o.bm25, p.topN)
  }

  /** Both kinds of hit sit at filtered positions. */
  lemma StageHitsFiltered(size: nat, ix: seq<int>, query: string, p: Params, o: Oracles)
    requires PositionsIn(ix, size)
    ensures HitsFiltered(VectorStage(size, ix, query, p, o), ix)
    ensures HitsFiltered(LexicalStage(ix, query, p, o), ix)
    ensures InCorpus(VectorStage(size, ix, query, p, o), size)
    ensures InCorpus(LexicalStage(ix, query, p, o), size)
  {
    var vec := VectorStage(size, ix, query, p, o);
    var lex := LexicalStage(ix, query, p, o);
    VectorHitsSpec(o.search(query, SearchK(|ix|, size)), size, ix, p.topN);
    LexicalHitsSpec(query, ix, o.bm25, p.topN);
    assert forall i :: 0 <= i < |vec| ==> vec[i] in vec;
    assert forall i :: 0 <= i < |lex| ==> lex[i] in lex;
    HitsInCorpus(vec, ix, size);
    HitsInCorpus(lex, ix, size);
  }

  /** `combined_scores` for the resolved query. */
  function Fused(metadata: seq<Record>, ix: seq<int>, query: string, p: Params, o: Oracles): (d: OD.Dict)
    requires PositionsIn(ix, |metadata|)
    ensures OD.Valid(d)
  {
    StageHitsFiltered(|metadata|, ix, query, p, o);
    var vec := VectorStage(|metadata|, ix, query, p, o);
    var lex := LexicalStage(ix, query, p, o);
    Fuse(metadata, vec, lex, p.alpha, MaxBm25(lex))
  }

  /** A title at a filtered position is the title of some filtered drama. */
  lemma TitleAtFiltered(metadata: seq<Record>, filtered: seq<Record>, ix: seq<int>, pos: int)
    requires IndicesOf(metadata, filtered, ix) && pos in ix
    ensures 0 <= pos < |metadata|
    ensures exists j :: 0 <= j < |filtered| && Title(filtered[j]) == Title(metadata[pos])
  {
    var k :| 0 <= k < |ix| && ix[k] == pos;
  }

  /** Every fused title is the title of a filtered drama, so the `next` of the ordering never raises. */
  lemma FusedTitlesFiltered(metadata: seq<Record>, filtered: seq<Record>, ix: seq<int>, query: string,
                            p: Params, o: Oracles)
    requires PositionsIn(ix, |metadata|) && IndicesOf(metadata, filtered, ix)
    ensures forall t :: t in Fused(metadata, ix, query, p, o).vals ==>
      exists j :: 0 <= j < |filtered| && Title(filtered[j]) == t
  {
    StageHitsFiltered(|metadata|, ix, query, p, o);
    var vec := VectorStage(|metadata|, ix, query, p, o);
    var lex := LexicalStage(ix, query, p, o);
    var mx := MaxBm25(lex);
    forall t | t in Fused(metadata, ix, query, p, o).vals
      ensures exists j :: 0 <= j < |filtered| && Title(filtered[j]) == t
    {
      FuseSpec(metadata, vec, lex, p.alpha, mx, t);
      if LastVectorScore(metadata, vec, t).Some? {
        LastVectorHit(metadata, vec, t);
        var i :| 0 <= i < |vec| && Title(metadata[vec[i].0]) == t;
        TitleAtFiltered(metadata, filtered, ix, vec[i].0);
      } else {
        var i :| 0 <= i < |lex| && Title(metadata[lex[i].0]) == t;
        TitleAtFiltered(metadata, filtered, ix, lex[i].0);
      }
    }
  }

  /** Stages 4.2 to 4.5 once the query is resolved. */
  function Finish(metadata: seq<Record>, filtered: seq<Record>, ix: seq<int>, query: string, p: Params, o: Oracles)
    : Outcome
    requires PositionsIn(ix, |metadata|)
  {
    match Ranked(filtered, Fused(metadata, ix, query, p, o))
    case None => Raised
    case Some(ranked) =>
      var similar := SimilarRestrict(metadata, filtered, ix, ranked, p.similarTo, o.search);
      match SortOverride(similar, p.sortBy, p.sortOrder, p.topRated)
      case None => Raised
      case Some(sorted) => Answer(Response(p.title, p, Rerank(query, Take(sorted, p.topN), o.rerank), None))
  }

  /** The whole of `recommend`: an answer, or the exception that escapes it. */
  function Recommend(metadata: seq<Record>, p: Params, o: Oracles): Outcome
  {
    var filtered := FilterCorpus(metadata, p);
    if filtered == [] then Answer(Response(p.title, p, [], Some(NoMatchMessage)))
    else
      FilterCorpusSpec(metadata, p);
      var ix := FilteredIndices(metadata, filtered);
      match ResolveQuery(p.title, filtered, o.fuzzy)
      case None => Raised
      case Some(query) => Finish(metadata, filtered, ix, query, p, o)
  }

  /** Sorting, truncating to `top_n` and reranking return at most `top_n` of the dramas they are given. */
  lemma LastStagesWithin(similar: seq<Record>, query: string, p: Params, o: Oracles)
    requires SortOverride(similar, p.sortBy, p.sortOrder, p.topRated).Some?
    ensures var out := Rerank(query, Take(SortOverride(similar, p.sortBy, p.sortOrder, p.topRated).value, p.topN), o.rerank);
      && (p.topN >= 0 ==> |out| <= p.topN)
      && forall r :: r in out ==> r in similar
  {
    var sorted := SortOverride(similar, p.sortBy, p.sortOrder, p.topRated).value;
    SortOverridePermutes(similar, p.sortBy, p.sortOrder, p.topRated);
    var top := Take(sorted, p.topN);
    RerankWithin(query, top, o.rerank);
    forall r | r in Rerank(query, top, o.rerank) ensures r in similar {
      assert r in top;
      assert r in sorted;
      assert r in multiset(similar);
    }
  }

  /** The ordering never raises: the ranked dramas are filtered dramas. */
  lemma RankedWithin(metadata: seq<Record>, filtered: seq<Record>, ix: seq<int>, query: string, p: Params, o: Oracles)
    requires PositionsIn(ix, |metadata|) && IndicesOf(metadata, filtered, ix)
    ensures Ranked(filtered, Fused(metadata, ix, query, p, o)).Some?
    ensures forall r :: r in Ranked(filtered, Fused(metadata, ix, query, p, o)).value ==> r in filtered
  {
    FusedTitlesFiltered(metadata, filtered, ix, query, p, o);
    RankedSpec(filtered, Fused(metadata, ix, query, p, o));
  }

  /**
   * After the query is resolved, only a sort can raise; every drama returned is a filtered drama,
   * and there are at most `top_n` of them.
   */
  lemma FinishSpec(metadata: seq<Record>, filtered: seq<Record>, ix: seq<int>, query: string, p: Params, o: Oracles)
    requires PositionsIn(ix, |metadata|) && IndicesOf(metadata, filtered, ix)
    ensures Finish(metadata, filtered, ix, query, p, o).Raised? ==> Given(p.sortBy) || p.topRated
    ensures Finish(metadata, filtered, ix, query, p, o).Answer? ==>
      var resp := Finish(metadata, filtered, ix, query, p, o).response;
      && resp.query == p.title && resp.filters == p && resp.message.None?
      && (p.topN >= 0 ==> |resp.recommendations| <= p.topN)
      && forall r :: r in resp.recommendations ==> r in filtered
  {
    RankedWithin(metadata, filtered, ix, query, p, o);
    var ranked := Ranked(filtered, Fused(metadata, ix, query, p, o)).value;
    var similar := SimilarRestrict(metadata, filtered, ix, ranked, p.similarTo, o.search);
    SimilarRestrictSpec(metadata, filtered, ix, ranked, p.similarTo, o.search);
    SubsequenceMembers(similar, ranked);
    if SortOverride(similar, p.sortBy, p.sortOrder, p.topRated).Some? {
      LastStagesWithin(similar, query, p, o);
    }
  }

  /**
   * `recommend` answers with the message and no dramas exactly when nothing passes the filters;
   * otherwise it raises only when the fuzzy match names no filtered drama or a sort raises, and it
   * answers with at most `top_n` dramas of the filtered corpus, each passing every given text
   * filter and, through `FilterCorpusSpec`, every rating threshold that applies.
   */
  lemma RecommendSpec(metadata: seq<Record>, p: Params, o: Oracles)
    ensures FilterCorpus(metadata, p) == [] ==>
      Recommend(metadata, p, o) == Answer(Response(p.title, p, [], Some(NoMatchMessage)))
    ensures Recommend(metadata, p, o).Raised? ==>
      && FilterCorpus(metadata, p) != []
      && (ResolveQuery(p.title, FilterCorpus(metadata, p), o.fuzzy).None? || Given(p.sortBy) || p.topRated)
    ensures Recommend(metadata, p, o).Answer? && FilterCorpus(metadata, p) != [] ==>
      var resp := Recommend(metadata, p, o).response;
      && resp.query == p.title && resp.filters == p && resp.message.None?
      && (p.topN >= 0 ==> |resp.recommendations| <= p.topN)
      && forall r :: r in resp.recommendations ==> r in FilterCorpus(metadata, p) && r in metadata && PassesTextFilters(r, p)
  {
    var filtered := FilterCorpus(metadata, p);
    FilterCorpusSpec(metadata, p);
    if filtered != [] {
      var ix := FilteredIndices(metadata, filtered);
      FilteredIndicesOf(metadata, filtered);
      var q := ResolveQuery(p.title, filtered, o.fuzzy);
      if q.Some? {
        FinishSpec(metadata, filtered, ix, q.value, p, o);
      }
    }
  }
}
