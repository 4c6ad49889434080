/**
 * The second half of `recommend` (backend/app.py): ordering the fused titles, the `similar_to`
 * restriction, the `sort_by` / `top_rated` override and the optional cross-encoder reranking.
 */
module Ranking {
  import opened Wrappers
  import opened PyStr
  import opened Sorting
  import OD = OrderedDict
  import opened Records
  import opened Lists
  import opened HybridSearch

  // ---------------------------------------------------------------------------
  // Ordering by combined score
  // ---------------------------------------------------------------------------

  /** The goes-before relation of `sorted(combined_scores.items(), key=score, reverse=True)`. */
  predicate FusedAbove(a: (string, real), b: (string, real))
  {
    a.1 > b.1
  }

  lemma FusedAboveOrder()
    ensures StrictWeakOrder(FusedAbove)
  {
  }

  /** The `(title, score)` pairs, best combined score first, ties in insertion order. */
  function RankOrder(combined: OD.Dict): seq<(string, real)>
    requires OD.Valid(combined)
  {
    SortBy(OD.Items(combined), FusedAbove)
  }

  /** The order holds exactly the fused pairs, each title with its own score, with scores never increasing. */
  lemma RankOrderSpec(combined: OD.Dict)
    requires OD.Valid(combined)
    ensures var o := RankOrder(combined);
      && multiset(o) == multiset(OD.Items(combined))
      && (forall i :: 0 <= i < |o| ==> o[i].0 in combined.vals && o[i].1 == combined.vals[o[i].0])
      && (forall i, j :: 0 <= i < j < |o| ==> o[i].1 >= o[j].1)
  {
    var items := OD.Items(combined);
    var o := RankOrder(combined);
    FusedAboveOrder();
    SortBySorted(items, FusedAbove);
    forall i, j | 0 <= i < j < |o| ensures o[i].1 >= o[j].1 {
      assert !FusedAbove(o[j], o[i]);
    }
    forall i | 0 <= i < |o| ensures o[i].0 in combined.vals && o[i].1 == combined.vals[o[i].0] {
      assert o[i] in multiset(items);
      var k :| 0 <= k < |items| && items[k] == o[i];
    }
  }

  /**
   * `[next(m for m in filtered if m["Title"] == t) for t, _ in order]`; `None` when some `next`
   * finds nothing and raises `StopIteration`.
   */
  function RecordsFor(filtered: seq<Record>, order: seq<(string, real)>): (r: Option<seq<Record>>)
    ensures r.Some? ==> |r.value| == |order|
    ensures r.Some? ==> forall i :: 0 <= i < |order| ==> FindTitle(filtered, order[i].0) == Some(r.value[i])
    ensures r.None? <==> exists i :: 0 <= i < |order| && FindTitle(filtered, order[i].0).None?
  {
    if order == [] then Some([])
    else
      match FindTitle(filtered, order[0].0)
      case None => None
      case Some(m) =>
        match RecordsFor(filtered, order[1..])
        case None =>
          var i :| 0 <= i < |order[1..]| && FindTitle(filtered, order[1..][i].0).None?;
          assert order[i + 1] == order[1..][i];
          None
        case Some(rest) =>
          assert forall i :: 1 <= i < |order| ==> order[i] == order[1..][i - 1];
          Some([m] + rest)
  }

  /** `filtered` after stage 4.4: the first drama with each fused title, best combined score first. */
  function Ranked(filtered: seq<Record>, combined: OD.Dict): Option<seq<Record>>
    requires OD.Valid(combined)
  {
    RecordsFor(filtered, RankOrder(combined))
  }

  /**
   * When every fused title is the title of a filtered drama, no `next` raises; the ranked list then
   * has one filtered drama per fused title, best combined score first.
   */
  lemma RankedSpec(filtered: seq<Record>, combined: OD.Dict)
    requires OD.Valid(combined)
    requires forall t :: t in combined.vals ==> exists j :: 0 <= j < |filtered| && Title(filtered[j]) == t
    ensures Ranked(filtered, combined).Some?
    ensures var rs := Ranked(filtered, combined).value;
      && |rs| == |combined.keys|
      && (forall i :: 0 <= i < |rs| ==> rs[i] in filtered && Title(rs[i]) in combined.vals)
      && (forall i, j :: 0 <= i < j < |rs| ==> combined.vals[Title(rs[i])] >= combined.vals[Title(rs[j])])
  {
    var o := RankOrder(combined);
    RankOrderSpec(combined);
    forall i | 0 <= i < |o| ensures FindTitle(filtered, o[i].0).Some? {
      var j :| 0 <= j < |filtered| && Title(filtered[j]) == o[i].0;
      assert filtered[j] in filtered;
    }
  }

  // ---------------------------------------------------------------------------
  // similar_to
  // ---------------------------------------------------------------------------

  /** Every filtered position indexes the corpus. */
  predicate PositionsIn(ix: seq<int>, size: nat)
  {
    forall k :: 0 <= k < |ix| ==> 0 <= ix[k] < size
  }

  /** `[metadata[idx]["Title"] for idx in hits if idx < len(metadata) and idx in filtered_indices]` */
  function SimilarTitles(metadata: seq<Record>, ix: seq<int>, hits: seq<(int, real)>): (ts: seq<string>)
    requires PositionsIn(ix, |metadata|)
    ensures |ts| <= |hits|
  {
    if hits == [] then []
    else
      var rest := SimilarTitles(metadata, ix, hits[..|hits| - 1]);
      var h := hits[|hits| - 1];
      if InFiltered(h, |metadata|, ix) then rest + [Title(metadata[h.0])] else rest
  }

  /** A title is similar exactly when some kept hit is a drama with that title. */
  lemma {:induction false} SimilarTitlesSpec(metadata: seq<Record>, ix: seq<int>, hits: seq<(int, real)>, t: string)
    requires PositionsIn(ix, |metadata|)
    ensures t in SimilarTitles(metadata, ix, hits)
        <==> exists i :: 0 <= i < |hits| && InFiltered(hits[i], |metadata|, ix) && Title(metadata[hits[i].0]) == t
  {
    if hits != [] {
      var init := hits[..|hits| - 1];
      SimilarTitlesSpec(metadata, ix, init, t);
      if exists i :: 0 <= i < |init| && InFiltered(init[i], |metadata|, ix) && Title(metadata[init[i].0]) == t {
        var i :| 0 <= i < |init| && InFiltered(init[i], |metadata|, ix) && Title(metadata[init[i].0]) == t;
        assert hits[i] == init[i];
      }
      if exists i :: 0 <= i < |hits| && InFiltered(hits[i], |metadata|, ix) && Title(metadata[hits[i].0]) == t {
        var i :| 0 <= i < |hits| && InFiltered(hits[i], |metadata|, ix) && Title(metadata[hits[i].0]) == t;
        if i < |init| {
          assert init[i] == hits[i];
        }
      }
    }
  }

  /** Whether a ranked drama survives the `similar_to` restriction. */
  predicate SimilarKeeps(r: Record, titles: seq<string>)
  {
    Title(r) in titles
  }

  /**
   * The `similar_to` stage: when the title names a filtered drama (ignoring case), keep the ranked
   * dramas whose titles are among that drama's vector neighbours inside the filtered set.
   */
  function SimilarRestrict(metadata: seq<Record>, filtered: seq<Record>, ix: seq<int>, ranked: seq<Record>,
                           similarTo: Option<string>, search: (string, int) -> seq<(int, real)>): seq<Record>
    requires PositionsIn(ix, |metadata|)
  {
    if !Given(similarTo) then ranked
    else
      match FindTitleIgnoreCase(filtered, similarTo.value)
      case None => ranked
      case Some(sim) =>
        var titles := SimilarTitles(metadata, ix, search(Document(sim), |filtered| + 20));
        Keep(ranked, r => SimilarKeeps(r, titles))
  }

  /**
   * The restriction keeps the ranked order and drops nothing when it does not apply; when it
   * applies, a ranked drama is kept exactly when its title is among the neighbours' titles.
   */
  lemma SimilarRestrictSpec(metadata: seq<Record>, filtered: seq<Record>, ix: seq<int>, ranked: seq<Record>,
                            similarTo: Option<string>, search: (string, int) -> seq<(int, real)>)
    requires PositionsIn(ix, |metadata|)
    ensures var out := SimilarRestrict(metadata, filtered, ix, ranked, similarTo, search);
      && IsSubsequence(out, ranked)
      && (!Given(similarTo) || FindTitleIgnoreCase(filtered, similarTo.value).None? ==> out == ranked)
    ensures Given(similarTo) && FindTitleIgnoreCase(filtered, similarTo.value).Some? ==>
      var sim := FindTitleIgnoreCase(filtered, similarTo.value).value;
      var titles := SimilarTitles(metadata, ix, search(Document(sim), |filtered| + 20));
      forall r :: r in SimilarRestrict(metadata, filtered, ix, ranked, similarTo, search)
        <==> r in ranked && Title(r) in titles
  {
    if Given(similarTo) && FindTitleIgnoreCase(filtered, similarTo.value).Some? {
      var sim := FindTitleIgnoreCase(filtered, similarTo.value).value;
      var titles := SimilarTitles(metadata, ix, search(Document(sim), |filtered| + 20));
      KeepSubsequence(ranked, r => SimilarKeeps(r, titles));
      KeepMembers(ranked, r => SimilarKeeps(r, titles));
    } else {
      SubsequenceRefl(ranked);
    }
  }

  // ---------------------------------------------------------------------------
  // sort_by / top_rated
  // ---------------------------------------------------------------------------

  /** The value `sort_by` sorts on: a float, or the field's text. */
  datatype SortKey = Num(x: real) | Text(s: string)

  /**
   * `float(v)` when `str(v).replace(".", "", 1).isdigit()`, else `str(v)`, where `v` is the field
   * or `0` when absent.
   */
  function SortKeyOf(r: Record, field: string): (k: SortKey)
    ensures field !in r ==> k == Num(0.0)
    ensures field in r ==> (k.Num? <==> NumericLooking(r[field]))
    ensures field in r && k.Num? ==> Some(k.x) == ParseFloat(r[field])
    ensures field in r && k.Text? ==> k.s == r[field]
  {
    if field !in r then Num(0.0)
    else if NumericLooking(r[field]) then
      NumericLookingParses(r[field]);
      Num(ParseFloat(r[field]).value)
    else Text(r[field])
  }

  /** Both kinds of key occur, so that the sort compares a float with a string. */
  predicate MixedKeys(rs: seq<Record>, field: string)
  {
    && (exists i :: 0 <= i < |rs| && SortKeyOf(rs[i], field).Num?)
    && (exists i :: 0 <= i < |rs| && SortKeyOf(rs[i], field).Text?)
  }

  /**
   * The goes-before relation of `sorted(..., key=SortKeyOf, reverse=desc)` on keys of one kind.
   * Between kinds, numbers go first: that case never decides a result, since a list holding both
   * kinds makes the sort raise.
   */
  predicate KeyBefore(a: SortKey, b: SortKey, desc: bool)
  {
    match (a, b)
    case (Num(x), Num(y)) => if desc then x > y else x < y
    case (Text(s), Text(t)) => if desc then LexLess(t, s) else LexLess(s, t)
    case (Num(_), Text(_)) => true
    case (Text(_), Num(_)) => false
  }

  lemma KeyBeforeOrder(desc: bool)
    ensures StrictWeakOrder((a, b) => KeyBefore(a, b, desc))
  {
    forall a: SortKey ensures !KeyBefore(a, a, desc) {
      if a.Text? {
        LexLessIrreflexive(a.s);
      }
    }
    forall a: SortKey, b: SortKey, c: SortKey | KeyBefore(a, b, desc) && KeyBefore(b, c, desc)
      ensures KeyBefore(a, c, desc)
    {
      if a.Text? && b.Text? && c.Text? {
        if desc {
          LexLessTransitive(c.s, b.s, a.s);
        } else {
          LexLessTransitive(a.s, b.s, c.s);
        }
      }
    }
    forall a: SortKey, b: SortKey, c: SortKey | KeyBefore(a, c, desc)
      ensures KeyBefore(a, b, desc) || KeyBefore(b, c, desc)
    {
      if a.Text? && b.Text? && c.Text? {
        TextNegTransitive(a.s, b.s, c.s, desc);
      }
    }
  }

  lemma TextNegTransitive(a: string, b: string, c: string, desc: bool)
    requires if desc then LexLess(c, a) else LexLess(a, c)
    ensures if desc then LexLess(b, a) || LexLess(c, b) else LexLess(a, b) || LexLess(b, c)
  {
    if desc {
      if !LexLess(b, a) && !LexLess(c, b) {
        if a != b { LexLessTotal(a, b); }
        if b != c { LexLessTotal(b, c); }
        if a == b { } else { LexLessTransitive(c, a, b); LexLessIrreflexive(b); }
      }
    } else {
      if !LexLess(a, b) && !LexLess(b, c) {
        if a != b { LexLessTotal(a, b); }
        if b != c { LexLessTotal(b, c); }
        if a == b { } else { LexLessTransitive(b, a, c); LexLessIrreflexive(c); }
      }
    }
  }

  /** The relation `sorted(filtered, key=..., reverse=desc)` orders records by. */
  predicate RecordKeyBefore(a: Record, b: Record, field: string, desc: bool)
  {
    KeyBefore(SortKeyOf(a, field), SortKeyOf(b, field), desc)
  }

  lemma RecordKeyBeforeOrder(field: string, desc: bool)
    ensures StrictWeakOrder((a, b) => RecordKeyBefore(a, b, field, desc))
  {
    KeyBeforeOrder(desc);
    var lt := (a, b) => KeyBefore(a, b, desc);
    assert forall a: Record, b: Record :: RecordKeyBefore(a, b, field, desc) == lt(SortKeyOf(a, field), SortKeyOf(b, field));
  }

  /** `float(r.get("rating_value", r.get("score", 0)))` when it parses, the `top_rated` sort key. */
  function RatingKey(r: Record): real
  {
    match RatingOf(r)
    case Some(v) => v
    case None => 0.0
  }

  /** The goes-before relation of `sorted(filtered, key=rating, reverse=True)`. */
  predicate RatedAbove(a: Record, b: Record)
  {
    RatingKey(a) > RatingKey(b)
  }

  lemma RatedAboveOrder()
    ensures StrictWeakOrder(RatedAbove)
  {
  }

  /**
   * `if sort_by: ... elif top_rated: ...`: `None` when the sort raises, which happens when the
   * `sort_by` keys mix floats and strings, or when a `top_rated` rating does not parse.
   */
  function SortOverride(rs: seq<Record>, sortBy: Option<string>, sortOrder: string, topRated: bool)
    : Option<seq<Record>>
  {
    if Given(sortBy) then
      if MixedKeys(rs, sortBy.value) then None
      else Some(SortBy(rs, (a, b) => RecordKeyBefore(a, b, sortBy.value, sortOrder == "desc")))
    else if topRated then
      if AnyUnparsable(rs, RatingOf) then None
      else Some(SortBy(rs, RatedAbove))
    else Some(rs)
  }

  /**
   * With `sort_by` the sort raises exactly on mixed keys and otherwise permutes the dramas into key
   * order, descending exactly when the order is `"desc"`; numeric keys then never increase (or never
   * decrease) down the list.
   */
  lemma SortBySpec(rs: seq<Record>, field: string, sortOrder: string, topRated: bool)
    requires field != ""
    ensures SortOverride(rs, Some(field), sortOrder, topRated).None? <==> MixedKeys(rs, field)
    ensures SortOverride(rs, Some(field), sortOrder, topRated).Some? ==>
      var out := SortOverride(rs, Some(field), sortOrder, topRated).value;
      && multiset(out) == multiset(rs)
      && (forall i, j :: 0 <= i < j < |out| && SortKeyOf(out[i], field).Num? && SortKeyOf(out[j], field).Num? ==>
            if sortOrder == "desc" then SortKeyOf(out[i], field).x >= SortKeyOf(out[j], field).x
            else SortKeyOf(out[i], field).x <= SortKeyOf(out[j], field).x)
      && (forall i, j :: 0 <= i < j < |out| && SortKeyOf(out[i], field).Text? && SortKeyOf(out[j], field).Text? ==>
            if sortOrder == "desc" then !LexLess(SortKeyOf(out[i], field).s, SortKeyOf(out[j], field).s)
            else !LexLess(SortKeyOf(out[j], field).s, SortKeyOf(out[i], field).s))
  {
    if !MixedKeys(rs, field) {
      var desc := sortOrder == "desc";
      var lt := (a, b) => RecordKeyBefore(a, b, field, desc);
      RecordKeyBeforeOrder(field, desc);
      SortBySorted(rs, lt);
      var out := SortBy(rs, lt);
      forall i, j | 0 <= i < j < |out| ensures !RecordKeyBefore(out[j], out[i], field, desc) {
        assert !lt(out[j], out[i]);
      }
    }
  }

  /**
   * Without `sort_by`, `top_rated` raises exactly when some rating does not parse and otherwise
   * permutes the dramas into non-increasing rating order; with neither, nothing moves.
   */
  lemma TopRatedSpec(rs: seq<Record>, sortBy: Option<string>, sortOrder: string, topRated: bool)
    requires !Given(sortBy)
    ensures topRated ==> (SortOverride(rs, sortBy, sortOrder, topRated).None? <==> AnyUnparsable(rs, RatingOf))
    ensures topRated && SortOverride(rs, sortBy, sortOrder, topRated).Some? ==>
      var out := SortOverride(rs, sortBy, sortOrder, topRated).value;
      && multiset(out) == multiset(rs)
      && (forall i :: 0 <= i < |out| ==> RatingOf(out[i]) == Some(RatingKey(out[i])))
      && (forall i, j :: 0 <= i < j < |out| ==> RatingKey(out[i]) >= RatingKey(out[j]))
    ensures !topRated ==> SortOverride(rs, sortBy, sortOrder, topRated) == Some(rs)
  {
    if topRated && !AnyUnparsable(rs, RatingOf) {
      var out := SortBy(rs, RatedAbove);
      RatedAboveOrder();
      SortBySorted(rs, RatedAbove);
      forall i, j | 0 <= i < j < |out| ensures RatingKey(out[i]) >= RatingKey(out[j]) {
        assert !RatedAbove(out[j], out[i]);
      }
      forall i | 0 <= i < |out| ensures RatingOf(out[i]) == Some(RatingKey(out[i])) {
        assert out[i] in multiset(rs);
        var k :| 0 <= k < |rs| && rs[k] == out[i];
      }
    }
  }

  /** Whichever branch runs, a sort that does not raise only reorders the dramas. */
  lemma SortOverridePermutes(rs: seq<Record>, sortBy: Option<string>, sortOrder: string, topRated: bool)
    requires SortOverride(rs, sortBy, sortOrder, topRated).Some?
    ensures multiset(SortOverride(rs, sortBy, sortOrder, topRated).value) == multiset(rs)
  {
    if Given(sortBy) {
      SortBySpec(rs, sortBy.value, sortOrder, topRated);
    } else {
      TopRatedSpec(rs, sortBy, sortOrder, topRated);
    }
  }

  // ---------------------------------------------------------------------------
  // Stage 4.5: reranking
  // ---------------------------------------------------------------------------

  /** Some drama has no `"Description"`, so building the pairs raises `KeyError`. */
  predicate MissingDescription(top: seq<Record>)
  {
    exists i :: 0 <= i < |top| && "Description" !in top[i]
  }

  /** `[[query_text, r["Description"]] for r in top_results]` */
  function RerankPairs(query: string, top: seq<Record>): (ps: seq<(string, string)>)
    requires !MissingDescription(top)
    ensures |ps| == |top|
    ensures forall i :: 0 <= i < |top| ==> ps[i] == (query, top[i]["Description"])
  {
    seq(|top|, i requires 0 <= i < |top| => (query, top[i]["Description"]))
  }

  /** `zip(rerank_scores, top_results)`: as long as the shorter of the two. */
  function Zip(scores: seq<real>, top: seq<Record>): (z: seq<(real, Record)>)
    ensures |z| == Min(|scores|, |top|)
    ensures forall i :: 0 <= i < |z| ==> z[i] == (scores[i], top[i])
  {
    seq(Min(|scores|, |top|), i requires 0 <= i < Min(|scores|, |top|) => (scores[i], top[i]))
  }

  /** The goes-before relation of `sorted(..., key=lambda x: x[0], reverse=True)`. */
  predicate RerankAbove(a: (real, Record), b: (real, Record))
  {
    a.0 > b.0
  }

  lemma RerankAboveOrder()
    ensures StrictWeakOrder(RerankAbove)
  {
  }

  /** The second components, in order. */
  function Seconds(z: seq<(real, Record)>): (rs: seq<Record>)
    ensures |rs| == |z|
    ensures forall i :: 0 <= i < |z| ==> rs[i] == z[i].1
  {
    seq(|z|, i requires 0 <= i < |z| => z[i].1)
  }

  /** Unzipping the zipped pairs gives back the dramas that got a score. */
  lemma ZipSeconds(scores: seq<real>, top: seq<Record>)
    ensures Seconds(Zip(scores, top)) == top[..Min(|scores|, |top|)]
  {
  }

  lemma SecondsAppend(u: seq<(real, Record)>, v: seq<(real, Record)>)
    ensures Seconds(u + v) == Seconds(u) + Seconds(v)
  {
  }

  /** The second components around position `k`. */
  lemma SecondsSplit(b: seq<(real, Record)>, k: nat)
    requires k < |b|
    ensures Seconds(b) == Seconds(b[..k]) + [b[k].1] + Seconds(b[k + 1..])
    ensures Seconds(b[..k] + b[k + 1..]) == Seconds(b[..k]) + Seconds(b[k + 1..])
  {
    assert b == b[..k] + [b[k]] + b[k + 1..];
    SecondsAppend(b[..k], [b[k]]);
    SecondsAppend(b[..k] + [b[k]], b[k + 1..]);
    SecondsAppend(b[..k], b[k + 1..]);
  }

  /** Matching the head of one permutation with an element of the other leaves permutations. */
  lemma PermutationRemove<T>(a: seq<T>, b: seq<T>, k: nat)
    requires multiset(a) == multiset(b)
    requires a != [] && k < |b| && b[k] == a[0]
    ensures multiset(a[1..]) == multiset(b[..k] + b[k + 1..])
  {
    assert a == [a[0]] + a[1..];
    assert b == b[..k] + [b[k]] + b[k + 1..];
    assert multiset(a) == multiset{a[0]} + multiset(a[1..]);
    assert multiset(b) == multiset(b[..k]) + multiset{b[k]} + multiset(b[k + 1..]);
    assert multiset(b[..k] + b[k + 1..]) == multiset(b[..k]) + multiset(b[k + 1..]);
    assert multiset(a[1..]) == multiset(a) - multiset{a[0]};
  }

  /** Putting the same element back into both sides of a permutation keeps it one. */
  lemma PermutationInsert<T>(x: T, s: seq<T>, u: seq<T>, v: seq<T>)
    requires multiset(s) == multiset(u + v)
    ensures multiset([x] + s) == multiset(u + [x] + v)
  {
    calc {
      multiset(u + [x] + v);
      multiset(u) + multiset{x} + multiset(v);
      multiset{x} + multiset(u + v);
    }
  }

  /** Reordering pairs reorders their second components the same way. */
  lemma {:induction false} SecondsPermutation(a: seq<(real, Record)>, b: seq<(real, Record)>)
    requires multiset(a) == multiset(b)
    ensures multiset(Seconds(a)) == multiset(Seconds(b))
    decreases |a|
  {
    if a == [] {
      assert |b| == |multiset(b)| == 0;
    } else {
      assert a[0] in multiset(b);
      var k :| 0 <= k < |b| && b[k] == a[0];
      var tail, rest := a[1..], b[..k] + b[k + 1..];
      PermutationRemove(a, b, k);
      SecondsPermutation(tail, rest);
      assert a == [a[0]] + tail;
      SecondsAppend([a[0]], tail);
      SecondsSplit(b, k);
      PermutationInsert(a[0].1, Seconds(tail), Seconds(b[..k]), Seconds(b[k + 1..]));
    }
  }

  /** The reranked pairs, best cross-encoder score first, ties in their previous order. */
  function RerankOrder(scores: seq<real>, top: seq<Record>): seq<(real, Record)>
  {
    SortBy(Zip(scores, top), RerankAbove)
  }

  /**
   * Stage 4.5: without a reranker, or when building the pairs or `predict` raises (the exception is
   * caught), the list is kept; otherwise it is reordered by the cross-encoder's scores.
   */
  function Rerank(query: string, top: seq<Record>,
                  rerank: Option<seq<(string, string)> -> Option<seq<real>>>): seq<Record>
  {
    match rerank
    case None => top
    case Some(predict) =>
      if MissingDescription(top) then top
      else
        match predict(RerankPairs(query, top))
        case None => top
        case Some(scores) => Seconds(RerankOrder(scores, top))
  }

  /**
   * Reranking keeps the list when it cannot run; when it runs, it reorders the dramas that got a
   * score, scores never increasing down the list, and it drops only dramas beyond the last score.
   */
  lemma RerankSpec(query: string, top: seq<Record>, rerank: Option<seq<(string, string)> -> Option<seq<real>>>)
    ensures rerank.None? || MissingDescription(top) ==> Rerank(query, top, rerank) == top
    ensures rerank.Some? && !MissingDescription(top) ==>
      var predict := rerank.value;
      match predict(RerankPairs(query, top))
      case None => Rerank(query, top, rerank) == top
      case Some(scores) =>
        var z := RerankOrder(scores, top);
        && Rerank(query, top, rerank) == Seconds(z)
        && multiset(z) == multiset(Zip(scores, top))
        && multiset(Rerank(query, top, rerank)) == multiset(top[..Min(|scores|, |top|)])
        && (forall i, j :: 0 <= i < j < |z| ==> z[i].0 >= z[j].0)
  {
    if rerank.Some? && !MissingDescription(top) {
      var predict := rerank.value;
      var pairs := RerankPairs(query, top);
      if predict(pairs).Some? {
        var scores := predict(pairs).value;
        var zipped := Zip(scores, top);
        var z := RerankOrder(scores, top);
        RerankAboveOrder();
        SortBySorted(zipped, RerankAbove);
        forall i, j | 0 <= i < j < |z| ensures z[i].0 >= z[j].0 {
          assert !RerankAbove(z[j], z[i]);
        }
        SecondsPermutation(z, zipped);
        ZipSeconds(scores, top);
      }
    }
  }

  /** The reranked list holds no more dramas than it was given, each one of them. */
  lemma RerankWithin(query: string, top: seq<Record>, rerank: Option<seq<(string, string)> -> Option<seq<real>>>)
    ensures |Rerank(query, top, rerank)| <= |top|
    ensures forall r :: r in Rerank(query, top, rerank) ==> r in top
  {
    RerankSpec(query, top, rerank);
    if rerank.Some? && !MissingDescription(top) && rerank.value(RerankPairs(query, top)).Some? {
      var scores := rerank.value(RerankPairs(query, top)).value;
      var zipped := Zip(scores, top);
      var z := RerankOrder(scores, top);
      forall r | r in Seconds(z) ensures r in top {
        var i :| 0 <= i < |z| && Seconds(z)[i] == r;
        assert z[i] in multiset(zipped);
        var k :| 0 <= k < |zipped| && zipped[k] == z[i];
        assert top[k] == r;
      }
    }
  }
}
