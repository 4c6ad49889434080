/**
 * The first stages of the hybrid recommendation pipeline behind `/recommend` (backend/app.py):
 * pre-filter the corpus, resolve the query to a text, keep the semantic (vector) and lexical (BM25)
 * hits inside the filtered set and fuse the two score lists. The embedding model, the vector index,
 * BM25, the fuzzy matcher and the cross-encoder are passed in as functions.
 */
module HybridSearch {
  import opened Wrappers
  import opened PyStr
  import opened Sorting
  import OD = OrderedDict
  import opened Records
  import opened Lists

  const FuzzyThreshold := 70.0
  const NoMatchMessage := "No dramas match your filters. Try broadening your search criteria."

  /** The arguments of `recommend`; an absent filter is `None`. The thresholds arrive as floats. */
  datatype Params = Params(
    title: string, topN: int, alpha: real,
    genre: Option<string>, director: Option<string>, publisher: Option<string>,
    topRated: bool, description: Option<string>,
    ratingValue: Option<real>, ratingCount: Option<real>,
    keywords: Option<string>, screenwriters: Option<string>,
    sortBy: Option<string>, sortOrder: string, similarTo: Option<string>)

  /**
   * The foreign services, as functions of their inputs:
   * `fuzzy(query, choices)` is rapidfuzz's best choice and its WRatio score;
   * `search(text, k)` is the vector index's `k` nearest (position, similarity) pairs for the encoded text;
   * `bm25(text, i)` is the BM25 score of corpus position `i` for the text's tokens;
   * `rerank` is absent when the cross-encoder did not load, and answers `None` when `predict` raises.
   */
  datatype Oracles = Oracles(
    fuzzy: (string, seq<string>) -> (string, real),
    search: (string, int) -> seq<(int, real)>,
    bm25: (string, int) -> real,
    rerank: Option<seq<(string, string)> -> Option<seq<real>>>)

  /** What `recommend` returns: the query, the echoed filters, the dramas and, when nothing passed the filters, a message. */
  datatype Response = Response(query: string, filters: Params, recommendations: seq<Record>, message: Option<string>)

  /** A response, or the exception that escapes `recommend`. */
  datatype Outcome = Answer(response: Response) | Raised

  /** `m["Title"]`: every corpus record has a title, since the service indexes them all at start-up. */
  function Title(r: Record): string
  {
    Get(r, "Title", "")
  }

  // ---------------------------------------------------------------------------
  // Stage 0: pre-filtering
  // ---------------------------------------------------------------------------

  /** A filter applies when it is given and truthy: `if genre:`. */
  predicate Given(f: Option<string>)
  {
    f.Some? && f.value != ""
  }

  /** The record passes text filter `f` when `f` occurs, ignoring case, in field `k1` or field `k2`. */
  predicate PassesText(r: Record, f: Option<string>, k1: string, k2: string)
  {
    !Given(f) || ContainsIgnoreCase(Get(r, k1, ""), f.value) || ContainsIgnoreCase(Get(r, k2, ""), f.value)
  }

  /** One text filter; a single-field filter names its field twice. */
  function TextFilter(rs: seq<Record>, f: Option<string>, k1: string, k2: string): seq<Record>
  {
    if Given(f) then Keep(rs, r => PassesText(r, f, k1, k2)) else rs
  }

  /** A text filter keeps, in order, exactly the records that pass it. */
  lemma TextFilterSpec(rs: seq<Record>, f: Option<string>, k1: string, k2: string)
    ensures IsSubsequence(TextFilter(rs, f, k1, k2), rs)
    ensures forall r :: r in TextFilter(rs, f, k1, k2) <==> r in rs && PassesText(r, f, k1, k2)
  {
    if Given(f) {
      KeepSubsequence(rs, r => PassesText(r, f, k1, k2));
      KeepMembers(rs, r => PassesText(r, f, k1, k2));
    } else {
      SubsequenceRefl(rs);
    }
  }

  /** `float(r.get("rating_value", r.get("score", 0)))` */
  function RatingOf(r: Record): Option<real>
  {
    ParseFloat(Get2(r, "rating_value", "score", "0"))
  }

  /** `float(r.get("rating_count", 0))` */
  function CountOf(r: Record): Option<real>
  {
    ParseFloat(Get(r, "rating_count", "0"))
  }

  /** Some record's value is one `float()` rejects. */
  predicate AnyUnparsable(rs: seq<Record>, value: Record -> Option<real>)
  {
    exists i :: 0 <= i < |rs| && value(rs[i]).None?
  }

  predicate AtLeast(r: Record, value: Record -> Option<real>, threshold: real)
  {
    value(r).Some? && value(r).value >= threshold
  }

  /**
   * One threshold filter. A zero threshold is falsy and skips it; a record value that does not
   * parse raises inside the comprehension, whose `except` leaves the list as it was.
   */
  function NumericFilter(rs: seq<Record>, threshold: Option<real>, value: Record -> Option<real>): seq<Record>
  {
    if threshold.None? || threshold.value == 0.0 || AnyUnparsable(rs, value) then rs
    else Keep(rs, r => AtLeast(r, value, threshold.value))
  }

  /**
   * A threshold filter keeps its input when it is absent or zero or some value does not parse, and
   * otherwise keeps, in order, exactly the records whose value reaches the threshold.
   */
  lemma NumericFilterSpec(rs: seq<Record>, threshold: Option<real>, value: Record -> Option<real>)
    ensures IsSubsequence(NumericFilter(rs, threshold, value), rs)
    ensures threshold.None? || threshold.value == 0.0 || AnyUnparsable(rs, value) ==>
      NumericFilter(rs, threshold, value) == rs
    ensures threshold.Some? && threshold.value != 0.0 && !AnyUnparsable(rs, value) ==>
      forall r :: r in NumericFilter(rs, threshold, value) <==> r in rs && value(r).value >= threshold.value
  {
    if threshold.None? || threshold.value == 0.0 || AnyUnparsable(rs, value) {
      SubsequenceRefl(rs);
    } else {
      var t := threshold.value;
      KeepSubsequence(rs, r => AtLeast(r, value, t));
      KeepMembers(rs, r => AtLeast(r, value, t));
      forall r | r in rs ensures value(r).Some? {
        var i :| 0 <= i < |rs| && rs[i] == r;
      }
    }
  }

  /** The genre, director, publisher and description filters, in that order. */
  function EarlyFilters(metadata: seq<Record>, p: Params): seq<Record>
  {
    var s1 := TextFilter(metadata, p.genre, "Genre", "genres");
    var s2 := TextFilter(s1, p.director, "Director", "directors");
    var s3 := TextFilter(s2, p.publisher, "publisher", "publisher");
    TextFilter(s3, p.description, "Description", "description")
  }

  /** The rating-value and rating-count thresholds, in that order. */
  function ThresholdFilters(rs: seq<Record>, p: Params): seq<Record>
  {
    NumericFilter(NumericFilter(rs, p.ratingValue, RatingOf), p.ratingCount, CountOf)
  }

  /** The keywords and screenwriters filters, in that order. */
  function LateFilters(rs: seq<Record>, p: Params): seq<Record>
  {
    TextFilter(TextFilter(rs, p.keywords, "keywords", "keywords"), p.screenwriters, "screenwriters", "screenwriters")
  }

  /** Stage 4.0: the filters in the order the code applies them. */
  function FilterCorpus(metadata: seq<Record>, p: Params): seq<Record>
  {
    LateFilters(ThresholdFilters(EarlyFilters(metadata, p), p), p)
  }

  predicate PassesEarly(r: Record, p: Params)
  {
    && PassesText(r, p.genre, "Genre", "genres")
    && PassesText(r, p.director, "Director", "directors")
    && PassesText(r, p.publisher, "publisher", "publisher")
    && PassesText(r, p.description, "Description", "description")
  }

  predicate PassesLate(r: Record, p: Params)
  {
    && PassesText(r, p.keywords, "keywords", "keywords")
    && PassesText(r, p.screenwriters, "screenwriters", "screenwriters")
  }

  /** The record passes every text filter that is given. */
  predicate PassesTextFilters(r: Record, p: Params)
  {
    PassesEarly(r, p) && PassesLate(r, p)
  }

  /** The record reaches threshold `threshold` on `value`, or the threshold is absent or zero. */
  predicate MeetsThreshold(r: Record, threshold: Option<real>, value: Record -> Option<real>)
  {
    threshold.None? || threshold.value == 0.0 || AtLeast(r, value, threshold.value)
  }

  /** The record reaches every rating threshold that is given. */
  predicate PassesThresholds(r: Record, p: Params)
  {
    MeetsThreshold(r, p.ratingValue, RatingOf) && MeetsThreshold(r, p.ratingCount, CountOf)
  }

  /** Neither rating threshold applies: each is absent or zero. */
  predicate NoThresholds(p: Params)
  {
    && (p.ratingValue.None? || p.ratingValue.value == 0.0)
    && (p.ratingCount.None? || p.ratingCount.value == 0.0)
  }

  /** A request with no filter at all. */
  predicate NoFilters(p: Params)
  {
    && !Given(p.genre) && !Given(p.director) && !Given(p.publisher) && !Given(p.description)
    && NoThresholds(p)
    && !Given(p.keywords) && !Given(p.screenwriters)
  }

  lemma EarlyFiltersSpec(metadata: seq<Record>, p: Params)
    ensures IsSubsequence(EarlyFilters(metadata, p), metadata)
    ensures forall r :: r in EarlyFilters(metadata, p) <==> r in metadata && PassesEarly(r, p)
  {
    var s1 := TextFilter(metadata, p.genre, "Genre", "genres");
    var s2 := TextFilter(s1, p.director, "Director", "directors");
    var s3 := TextFilter(s2, p.publisher, "publisher", "publisher");
    var s4 := TextFilter(s3, p.description, "Description", "description");
    TextFilterSpec(metadata, p.genre, "Genre", "genres");
    TextFilterSpec(s1, p.director, "Director", "directors");
    TextFilterSpec(s2, p.publisher, "publisher", "publisher");
    TextFilterSpec(s3, p.description, "Description", "description");
    SubsequenceTrans(s2, s1, metadata);
    SubsequenceTrans(s3, s2, metadata);
    SubsequenceTrans(s4, s3, metadata);
  }

  lemma ThresholdFiltersSpec(rs: seq<Record>, p: Params)
    ensures IsSubsequence(ThresholdFilters(rs, p), rs)
    ensures NoThresholds(p) ==> ThresholdFilters(rs, p) == rs
    ensures !AnyUnparsable(rs, RatingOf) ==>
      forall r :: r in ThresholdFilters(rs, p) ==> MeetsThreshold(r, p.ratingValue, RatingOf)
    ensures !AnyUnparsable(rs, CountOf) ==>
      forall r :: r in ThresholdFilters(rs, p) ==> MeetsThreshold(r, p.ratingCount, CountOf)
    ensures !AnyUnparsable(rs, RatingOf) && !AnyUnparsable(rs, CountOf) ==>
      forall r :: r in ThresholdFilters(rs, p) <==> r in rs && PassesThresholds(r, p)
  {
    var s5 := NumericFilter(rs, p.ratingValue, RatingOf);
    var s6 := ThresholdFilters(rs, p);
    NumericFilterSpec(rs, p.ratingValue, RatingOf);
    NumericFilterSpec(s5, p.ratingCount, CountOf);
    SubsequenceTrans(s6, s5, rs);
    SubsequenceMembers(s6, s5);
    SubsequenceMembers(s5, rs);
    if !AnyUnparsable(rs, RatingOf) {
      NumericFilterMembers(rs, p.ratingValue, RatingOf);
    }
    if !AnyUnparsable(rs, CountOf) {
      ParsableMembers(s5, rs, CountOf);
      NumericFilterMembers(s5, p.ratingCount, CountOf);
    }
  }

  /** With every value parsable, a threshold filter keeps exactly the records that meet it. */
  lemma NumericFilterMembers(rs: seq<Record>, threshold: Option<real>, value: Record -> Option<real>)
    requires !AnyUnparsable(rs, value)
    ensures forall r :: r in NumericFilter(rs, threshold, value) <==> r in rs && MeetsThreshold(r, threshold, value)
  {
    NumericFilterSpec(rs, threshold, value);
    forall r | r in rs ensures value(r).Some? {
      var i :| 0 <= i < |rs| && rs[i] == r;
    }
  }

  /** Every value of a list drawn from a parsable list parses. */
  lemma ParsableMembers(a: seq<Record>, b: seq<Record>, value: Record -> Option<real>)
    requires forall r :: r in a ==> r in b
    requires !AnyUnparsable(b, value)
    ensures !AnyUnparsable(a, value)
  {
    forall i | 0 <= i < |a| ensures value(a[i]).Some? {
      assert a[i] in a;
      var j :| 0 <= j < |b| && b[j] == a[i];
    }
  }

  lemma LateFiltersSpec(rs: seq<Record>, p: Params)
    ensures IsSubsequence(LateFilters(rs, p), rs)
    ensures forall r :: r in LateFilters(rs, p) <==> r in rs && PassesLate(r, p)
  {
    var s7 := TextFilter(rs, p.keywords, "keywords", "keywords");
    TextFilterSpec(rs, p.keywords, "keywords", "keywords");
    TextFilterSpec(s7, p.screenwriters, "screenwriters", "screenwriters");
    SubsequenceTrans(LateFilters(rs, p), s7, rs);
  }

  /**
   * The filtered corpus is an order-preserving subsequence of the corpus whose every record passes
   * every given text filter, and it is the whole corpus when no filter is given. Without rating
   * thresholds it holds exactly the records that pass the text filters. When every record left by
   * the text filters has a parsable rating (count), every survivor reaches the rating (count)
   * threshold; when both parse, it holds exactly the records that pass the text filters and reach
   * both thresholds.
   */
  lemma FilterCorpusSpec(metadata: seq<Record>, p: Params)
    ensures IsSubsequence(FilterCorpus(metadata, p), metadata)
    ensures forall r :: r in FilterCorpus(metadata, p) ==> r in metadata && PassesTextFilters(r, p)
    ensures NoFilters(p) ==> FilterCorpus(metadata, p) == metadata
    ensures NoThresholds(p) ==>
      forall r :: r in FilterCorpus(metadata, p) <==> r in metadata && PassesTextFilters(r, p)
    ensures !AnyUnparsable(EarlyFilters(metadata, p), RatingOf) ==>
      forall r :: r in FilterCorpus(metadata, p) ==> MeetsThreshold(r, p.ratingValue, RatingOf)
    ensures !AnyUnparsable(EarlyFilters(metadata, p), CountOf) ==>
      forall r :: r in FilterCorpus(metadata, p) ==> MeetsThreshold(r, p.ratingCount, CountOf)
    ensures !AnyUnparsable(EarlyFilters(metadata, p), RatingOf) && !AnyUnparsable(EarlyFilters(metadata, p), CountOf) ==>
      forall r :: r in FilterCorpus(metadata, p) <==> r in metadata && PassesTextFilters(r, p) && PassesThresholds(r, p)
  {
    var early := EarlyFilters(metadata, p);
    var mid := ThresholdFilters(early, p);
    var out := LateFilters(mid, p);
    EarlyFiltersSpec(metadata, p);
    ThresholdFiltersSpec(early, p);
    LateFiltersSpec(mid, p);
    SubsequenceTrans(mid, early, metadata);
    SubsequenceTrans(out, mid, metadata);
    SubsequenceMembers(mid, early);
  }

  // ---------------------------------------------------------------------------
  // Positions of the filtered records in the corpus
  // ---------------------------------------------------------------------------

  /** `{m["Title"]: i for i, m in enumerate(metadata)}[t]`: later titles overwrite, so the last position. */
  function LastIndexOfTitle(metadata: seq<Record>, t: string): (i: int)
    ensures -1 <= i < |metadata|
    ensures i >= 0 ==> Title(metadata[i]) == t
    ensures forall j :: i < j < |metadata| ==> Title(metadata[j]) != t
  {
    if metadata == [] then -1
    else if Title(metadata[|metadata| - 1]) == t then |metadata| - 1
    else LastIndexOfTitle(metadata[..|metadata| - 1], t)
  }

  /** A title that occurs in the corpus has a position. */
  lemma {:induction false} LastIndexFound(metadata: seq<Record>, r: Record)
    requires r in metadata
    ensures LastIndexOfTitle(metadata, Title(r)) >= 0
  {
    if Title(metadata[|metadata| - 1]) != Title(r) {
      var init := metadata[..|metadata| - 1];
      assert metadata == init + [metadata[|metadata| - 1]];
      LastIndexFound(init, r);
    }
  }

  lemma AllTitlesFound(metadata: seq<Record>, filtered: seq<Record>)
    requires forall r :: r in filtered ==> r in metadata
    ensures forall i :: 0 <= i < |filtered| ==> LastIndexOfTitle(metadata, Title(filtered[i])) >= 0
  {
    forall i | 0 <= i < |filtered| ensures LastIndexOfTitle(metadata, Title(filtered[i])) >= 0 {
      LastIndexFound(metadata, filtered[i]);
    }
  }

  /** `filtered_indices`: the corpus position of each filtered record's title. */
  function FilteredIndices(metadata: seq<Record>, filtered: seq<Record>): (ix: seq<int>)
    requires forall r :: r in filtered ==> r in metadata
    ensures |ix| == |filtered|
    ensures forall i :: 0 <= i < |ix| ==> 0 <= ix[i] < |metadata| && Title(metadata[ix[i]]) == Title(filtered[i])
  {
    AllTitlesFound(metadata, filtered);
    seq(|filtered|, i requires 0 <= i < |filtered| => LastIndexOfTitle(metadata, Title(filtered[i])))
  }

  /** Every filtered position holds a drama whose title some filtered record carries. */
  ghost predicate IndicesOf(metadata: seq<Record>, filtered: seq<Record>, ix: seq<int>)
  {
    forall i :: 0 <= i < |ix| ==>
      0 <= ix[i] < |metadata| && exists j :: 0 <= j < |filtered| && Title(filtered[j]) == Title(metadata[ix[i]])
  }

  lemma FilteredIndicesOf(metadata: seq<Record>, filtered: seq<Record>)
    requires forall r :: r in filtered ==> r in metadata
    ensures IndicesOf(metadata, filtered, FilteredIndices(metadata, filtered))
  {
    var ix := FilteredIndices(metadata, filtered);
    forall i | 0 <= i < |ix|
      ensures exists j :: 0 <= j < |filtered| && Title(filtered[j]) == Title(metadata[ix[i]])
    {
      assert Title(filtered[i]) == Title(metadata[ix[i]]);
    }
  }

  // ---------------------------------------------------------------------------
  // Stage 4.1: title resolution
  // ---------------------------------------------------------------------------

  /** `next((m for m in rs if m["Title"].lower() == t.lower()), None)` */
  function FindTitleIgnoreCase(rs: seq<Record>, t: string): (m: Option<Record>)
    ensures m.Some? ==> m.value in rs && Lower(Title(m.value)) == Lower(t)
    ensures m.None? <==> forall r :: r in rs ==> Lower(Title(r)) != Lower(t)
  {
    if rs == [] then None
    else if Lower(Title(rs[0])) == Lower(t) then Some(rs[0])
    else
      var m := FindTitleIgnoreCase(rs[1..], t);
      assert forall r :: r in rs ==> r == rs[0] || r in rs[1..];
      m
  }

  /** `next` yields the first record whose title matches ignoring case: none before it does. */
  lemma {:induction false} FindTitleIgnoreCaseFirst(rs: seq<Record>, t: string)
    ensures FindTitleIgnoreCase(rs, t).Some? ==> exists i ::
      && 0 <= i < |rs| && rs[i] == FindTitleIgnoreCase(rs, t).value
      && forall j :: 0 <= j < i ==> Lower(Title(rs[j])) != Lower(t)
  {
    if rs != [] && Lower(Title(rs[0])) != Lower(t) && FindTitleIgnoreCase(rs[1..], t).Some? {
      FindTitleIgnoreCaseFirst(rs[1..], t);
      var i :| 0 <= i < |rs[1..]| && rs[1..][i] == FindTitleIgnoreCase(rs, t).value
        && forall j :: 0 <= j < i ==> Lower(Title(rs[1..][j])) != Lower(t);
      forall j | 0 <= j < i + 1 ensures Lower(Title(rs[j])) != Lower(t) {
        if j > 0 { assert rs[j] == rs[1..][j - 1]; }
      }
      assert rs[i + 1] == FindTitleIgnoreCase(rs, t).value;
    }
  }

  /** `next((m for m in rs if m["Title"] == t), None)` */
  function FindTitle(rs: seq<Record>, t: string): (m: Option<Record>)
    ensures m.Some? ==> m.value in rs && Title(m.value) == t
    ensures m.None? <==> forall r :: r in rs ==> Title(r) != t
  {
    if rs == [] then None
    else if Title(rs[0]) == t then Some(rs[0])
    else
      var m := FindTitle(rs[1..], t);
      assert forall r :: r in rs ==> r == rs[0] || r in rs[1..];
      m
  }

  /** `next` yields the first record with exactly the title: none before it has it. */
  lemma {:induction false} FindTitleFirst(rs: seq<Record>, t: string)
    ensures FindTitle(rs, t).Some? ==> exists i ::
      && 0 <= i < |rs| && rs[i] == FindTitle(rs, t).value
      && forall j :: 0 <= j < i ==> Title(rs[j]) != t
  {
    if rs != [] && Title(rs[0]) != t && FindTitle(rs[1..], t).Some? {
      FindTitleFirst(rs[1..], t);
      var i :| 0 <= i < |rs[1..]| && rs[1..][i] == FindTitle(rs, t).value
        && forall j :: 0 <= j < i ==> Title(rs[1..][j]) != t;
      forall j | 0 <= j < i + 1 ensures Title(rs[j]) != t {
        if j > 0 { assert rs[j] == rs[1..][j - 1]; }
      }
      assert rs[i + 1] == FindTitle(rs, t).value;
    }
  }

  function Titles(rs: seq<Record>): (ts: seq<string>)
    ensures |ts| == |rs|
    ensures forall i :: 0 <= i < |rs| ==> ts[i] == Title(rs[i])
  {
    seq(|rs|, i requires 0 <= i < |rs| => Title(rs[i]))
  }

  /** `fuzzy_match_title`: the best choice when its score reaches 70, and the score either way. */
  function FuzzyMatchTitle(userInput: string, titles: seq<string>, fuzzy: (string, seq<string>) -> (string, real))
    : (r: (Option<string>, real))
    ensures r.1 == fuzzy(userInput, titles).1
    ensures r.0.Some? <==> fuzzy(userInput, titles).1 >= FuzzyThreshold
    ensures r.0.Some? ==> r.0.value == fuzzy(userInput, titles).0
  {
    var (m, score) := fuzzy(userInput, titles);
    if score >= FuzzyThreshold then (Some(m), score) else (None, score)
  }

  /**
   * The text searched for: the document of the filtered drama whose title equals the query ignoring
   * case; otherwise that of the filtered drama the fuzzy matcher names with a non-empty title and a
   * score of at least 70; otherwise the raw query. `None` when the fuzzy match names no filtered
   * drama, where the code indexes `None` and raises.
   */
  function ResolveQuery(title: string, filtered: seq<Record>, fuzzy: (string, seq<string>) -> (string, real))
    : Option<string>
  {
    match FindTitleIgnoreCase(filtered, title)
    case Some(drama) => Some(Document(drama))
    case None =>
      var titles := Titles(filtered);
      if titles == [] then Some(title)
      else
        var (m, score) := fuzzy(title, titles);
        if m != "" && score >= FuzzyThreshold then
          match FindTitle(filtered, m)
          case Some(drama) => Some(Document(drama))
          case None => None
        else Some(title)
  }

  /** The three ways the query resolves, in their order of precedence. */
  lemma ResolveQueryCases(title: string, filtered: seq<Record>, fuzzy: (string, seq<string>) -> (string, real))
    ensures forall r :: r in filtered && Lower(Title(r)) == Lower(title) ==>
      ResolveQuery(title, filtered, fuzzy) == Some(Document(FindTitleIgnoreCase(filtered, title).value))
    ensures (forall r :: r in filtered ==> Lower(Title(r)) != Lower(title)) && filtered != [] ==>
      var (m, score) := fuzzy(title, Titles(filtered));
      && (m != "" && score >= FuzzyThreshold && FindTitle(filtered, m).Some? ==>
            ResolveQuery(title, filtered, fuzzy) == Some(Document(FindTitle(filtered, m).value)))
      && (m == "" || score < FuzzyThreshold ==> ResolveQuery(title, filtered, fuzzy) == Some(title))
    ensures ResolveQuery(title, filtered, fuzzy).Some? ==>
      ResolveQuery(title, filtered, fuzzy).value == title
      || exists r :: r in filtered && ResolveQuery(title, filtered, fuzzy).value == Document(r)
  {
  }

  // ---------------------------------------------------------------------------
  // Stages 4.2 and 4.3: vector and lexical hits inside the filtered set
  // ---------------------------------------------------------------------------

  /**
   * `search_k`: the number of neighbours asked of the vector index. It never exceeds the
   * catalogue, asks for 50 beyond the filtered records when the catalogue has room, and so always
   * covers every filtered record the catalogue holds.
   */
  function SearchK(filteredCount: nat, corpusSize: nat): (k: int)
    ensures 0 <= k <= corpusSize
    ensures k <= filteredCount + 50
    ensures k == corpusSize || k == filteredCount + 50
    ensures filteredCount <= corpusSize ==> filteredCount <= k
  {
    Min(filteredCount + 50, corpusSize)
  }

  /** `idx < len(metadata) and idx in filtered_indices` */
  predicate InFiltered(hit: (int, real), size: nat, ix: seq<int>)
  {
    hit.0 < size && hit.0 in ix
  }

  /** The vector hits kept: those inside the filtered set, in the index's order, then `[:top_n + 20]`. */
  function VectorHits(hits: seq<(int, real)>, size: nat, ix: seq<int>, topN: int): seq<(int, real)>
  {
    Take(Keep(hits, h => InFiltered(h, size, ix)), topN + 20)
  }

  /**
   * Every kept vector hit is a filtered position, the kept hits keep the index's order, and there
   * are `top_n + 20` of them, or fewer only when no other in-filter hit is left: an in-filter hit is
   * dropped only once the cap is reached.
   */
  lemma VectorHitsSpec(hits: seq<(int, real)>, size: nat, ix: seq<int>, topN: int)
    ensures var v := VectorHits(hits, size, ix, topN);
      && IsSubsequence(v, hits)
      && (forall h :: h in v ==> h in hits && InFiltered(h, size, ix))
      && |v| <= |hits|
      && (topN + 20 >= 0 ==> |v| == Min(|Keep(hits, h => InFiltered(h, size, ix))|, topN + 20))
      && (topN + 20 >= 0 && |v| < topN + 20 ==> forall h :: h in hits && InFiltered(h, size, ix) ==> h in v)
  {
    var kept := Keep(hits, h => InFiltered(h, size, ix));
    var v := VectorHits(hits, size, ix, topN);
    assert v == kept[..|v|];
    KeepSubsequence(hits, h => InFiltered(h, size, ix));
    KeepMembers(hits, h => InFiltered(h, size, ix));
    PrefixSubsequence(kept, |v|);
    SubsequenceTrans(v, kept, hits);
    SubsequenceMembers(v, kept);
    if topN + 20 >= 0 && |v| < topN + 20 {
      assert v == kept;
    }
  }

  /** The goes-before relation of a descending sort on the score of a pair. */
  predicate ScoreAbove(a: (int, real), b: (int, real))
  {
    a.1 > b.1
  }

  lemma ScoreAboveOrder()
    ensures StrictWeakOrder(ScoreAbove)
  {
  }

  /** `[(idx, bm25_scores_all[idx]) for idx in filtered_indices]` */
  function LexicalScores(query: string, ix: seq<int>, bm25: (string, int) -> real): (r: seq<(int, real)>)
    ensures |r| == |ix|
    ensures forall i :: 0 <= i < |ix| ==> r[i] == (ix[i], bm25(query, ix[i]))
  {
    seq(|ix|, i requires 0 <= i < |ix| => (ix[i], bm25(query, ix[i])))
  }

  /** The lexical hits: the filtered positions by BM25 score, best first, then `[:top_n + 20]`. */
  function LexicalHits(query: string, ix: seq<int>, bm25: (string, int) -> real, topN: int): seq<(int, real)>
  {
    Take(SortBy(LexicalScores(query, ix, bm25), ScoreAbove), topN + 20)
  }

  /**
   * Every lexical hit is a filtered position carrying its BM25 score, scores never increase down the
   * list, there are `min(len(filtered), top_n + 20)` of them, and no filtered position left out
   * scores higher than a kept one.
   */
  lemma LexicalHitsSpec(query: string, ix: seq<int>, bm25: (string, int) -> real, topN: int)
    ensures var l := LexicalHits(query, ix, bm25, topN);
      && (forall h :: h in l ==> h.0 in ix && h.1 == bm25(query, h.0))
      && (forall i, j :: 0 <= i < j < |l| ==> l[i].1 >= l[j].1)
      && |l| <= |ix|
      && (topN + 20 >= 0 ==> |l| == Min(|ix|, topN + 20))
      && (forall i, h :: 0 <= i < |ix| && h in l && (ix[i], bm25(query, ix[i])) !in l ==> bm25(query, ix[i]) <= h.1)
  {
    var all := LexicalScores(query, ix, bm25);
    var sorted := SortBy(all, ScoreAbove);
    var l := LexicalHits(query, ix, bm25, topN);
    assert l == sorted[..|l|];
    ScoreAboveOrder();
    SortBySorted(all, ScoreAbove);
    forall i, j | 0 <= i < j < |l| ensures l[i].1 >= l[j].1 {
      assert !ScoreAbove(sorted[j], sorted[i]);
    }
    forall h | h in l ensures h.0 in ix && h.1 == bm25(query, h.0) {
      assert h in sorted;
      assert h in multiset(all);
    }
    forall i, h | 0 <= i < |ix| && h in l && (ix[i], bm25(query, ix[i])) !in l
      ensures bm25(query, ix[i]) <= h.1
    {
      assert all[i] in multiset(sorted);
      var m :| 0 <= m < |sorted| && sorted[m] == all[i];
      var k :| 0 <= k < |l| && l[k] == h;
      assert m >= |l|;
      assert !ScoreAbove(sorted[m], sorted[k]);
    }
  }

  // ---------------------------------------------------------------------------
  // Stage 4.4: fusion
  // ---------------------------------------------------------------------------

  function MaxScore(hs: seq<(int, real)>): (m: real)
    requires hs != []
    ensures exists i :: 0 <= i < |hs| && m == hs[i].1
    ensures forall i :: 0 <= i < |hs| ==> hs[i].1 <= m
  {
    if |hs| == 1 then hs[0].1
    else
      var m := MaxScore(hs[..|hs| - 1]);
      var last := hs[|hs| - 1].1;
      if last > m then last else m
  }

  /** `max_bm25`: the best lexical score, replaced by 1 when there is none or it is 0. */
  function MaxBm25(lex: seq<(int, real)>): (m: real)
    ensures m != 0.0
    ensures lex == [] ==> m == 1.0
    ensures lex != [] && MaxScore(lex) == 0.0 ==> m == 1.0
    ensures lex != [] && MaxScore(lex) != 0.0 ==> m == MaxScore(lex)
  {
    if lex == [] then 1.0
    else
      var m := MaxScore(lex);
      if m == 0.0 then 1.0 else m
  }

  /** The vector side's contribution: `alpha * score`. */
  function VecTerm(alpha: real, score: real): real
  {
    alpha * score
  }

  /** The lexical side's contribution: `(1 - alpha) * (score / max_bm25)`. */
  function LexTerm(alpha: real, score: real, maxBm25: real): real
    requires maxBm25 != 0.0
  {
    (1.0 - alpha) * (score / maxBm25)
  }

  /** With `alpha` in [0, 1] and a score between 0 and the positive maximum, the lexical term lies in [0, 1 - alpha]. */
  lemma LexTermBounds(alpha: real, score: real, maxBm25: real)
    requires 0.0 <= alpha <= 1.0 && 0.0 <= score <= maxBm25 && maxBm25 > 0.0
    ensures 0.0 <= LexTerm(alpha, score, maxBm25) <= 1.0 - alpha
  {
    var q := score / maxBm25;
    assert q * maxBm25 == score;
    assert 0.0 <= q <= 1.0;
    var w := 1.0 - alpha;
    assert 0.0 <= w * q <= w;
  }

  /** Every lexical hit's term lies in [0, 1 - alpha] when BM25 scores are not negative. */
  lemma LexTermsBounded(lex: seq<(int, real)>, alpha: real)
    requires 0.0 <= alpha <= 1.0
    requires forall i :: 0 <= i < |lex| ==> lex[i].1 >= 0.0
    ensures forall i :: 0 <= i < |lex| ==>
      0.0 <= LexTerm(alpha, lex[i].1, MaxBm25(lex)) <= 1.0 - alpha
  {
    forall i | 0 <= i < |lex| ensures 0.0 <= LexTerm(alpha, lex[i].1, MaxBm25(lex)) <= 1.0 - alpha {
      if MaxScore(lex) == 0.0 {
        assert lex[i].1 == 0.0;
      }
      LexTermBounds(alpha, lex[i].1, MaxBm25(lex));
    }
  }

  /** Every position of the list indexes the corpus. */
  predicate InCorpus(hs: seq<(int, real)>, size: nat)
  {
    forall i :: 0 <= i < |hs| ==> 0 <= hs[i].0 < size
  }

  /** One pass of the first loop: `combined_scores[title] = alpha * score`. */
  function VectorStep(d: OD.Dict, metadata: seq<Record>, h: (int, real), alpha: real): (r: OD.Dict)
    requires OD.Valid(d) && 0 <= h.0 < |metadata|
    ensures OD.Valid(r)
  {
    OD.Set(d, Title(metadata[h.0]), VecTerm(alpha, h.1))
  }

  /** One pass of the second loop: the title's score, 0 when absent, grows by the lexical term. */
  function LexicalStep(d: OD.Dict, metadata: seq<Record>, h: (int, real), alpha: real, maxBm25: real): (r: OD.Dict)
    requires OD.Valid(d) && 0 <= h.0 < |metadata| && maxBm25 != 0.0
    ensures OD.Valid(r)
  {
    var t := Title(metadata[h.0]);
    OD.Set(d, t, OD.Get(d, t, 0.0) + LexTerm(alpha, h.1, maxBm25))
  }

  /** The first loop run over the hits `vec`, starting from `d`. */
  function FuseVector(d: OD.Dict, metadata: seq<Record>, vec: seq<(int, real)>, alpha: real): (r: OD.Dict)
    requires OD.Valid(d) && InCorpus(vec, |metadata|)
    ensures OD.Valid(r)
    decreases |vec|
  {
    if vec == [] then d
    else FuseVector(VectorStep(d, metadata, vec[0], alpha), metadata, vec[1..], alpha)
  }

  /** The second loop run over the hits `lex`, starting from `d`. */
  function FuseLexical(d: OD.Dict, metadata: seq<Record>, lex: seq<(int, real)>, alpha: real, maxBm25: real)
    : (r: OD.Dict)
    requires OD.Valid(d) && InCorpus(lex, |metadata|) && maxBm25 != 0.0
    ensures OD.Valid(r)
    decreases |lex|
  {
    if lex == [] then d
    else FuseLexical(LexicalStep(d, metadata, lex[0], alpha, maxBm25), metadata, lex[1..], alpha, maxBm25)
  }

  /** `combined_scores` */
  function Fuse(metadata: seq<Record>, vec: seq<(int, real)>, lex: seq<(int, real)>, alpha: real, maxBm25: real)
    : (d: OD.Dict)
    requires InCorpus(vec, |metadata|) && InCorpus(lex, |metadata|) && maxBm25 != 0.0
    ensures OD.Valid(d)
  {
    FuseLexical(FuseVector(OD.Empty(), metadata, vec, alpha), metadata, lex, alpha, maxBm25)
  }

  /** The score of the last vector hit whose drama has title `t`: the assignment that survives. */
  function LastVectorScore(metadata: seq<Record>, vec: seq<(int, real)>, t: string): Option<real>
    requires InCorpus(vec, |metadata|)
  {
    if vec == [] then None
    else if Title(metadata[vec[|vec| - 1].0]) == t then Some(vec[|vec| - 1].1)
    else LastVectorScore(metadata, vec[..|vec| - 1], t)
  }

  /** The sum of the lexical terms of the hits whose drama has title `t`. */
  function LexicalSum(metadata: seq<Record>, lex: seq<(int, real)>, t: string, alpha: real, maxBm25: real): real
    requires InCorpus(lex, |metadata|) && maxBm25 != 0.0
  {
    if lex == [] then 0.0
    else
      (if Title(metadata[lex[0].0]) == t then LexTerm(alpha, lex[0].1, maxBm25) else 0.0)
        + LexicalSum(metadata, lex[1..], t, alpha, maxBm25)
  }

  /** Some lexical hit's drama has title `t`. */
  predicate LexicalHas(metadata: seq<Record>, lex: seq<(int, real)>, t: string)
    requires InCorpus(lex, |metadata|)
  {
    exists i :: 0 <= i < |lex| && Title(metadata[lex[i].0]) == t
  }

  /** A title with a surviving vector score is the title of some vector hit. */
  lemma {:induction false} LastVectorHit(metadata: seq<Record>, vec: seq<(int, real)>, t: string)
    requires InCorpus(vec, |metadata|) && LastVectorScore(metadata, vec, t).Some?
    ensures exists i :: 0 <= i < |vec| && Title(metadata[vec[i].0]) == t
  {
    var init := vec[..|vec| - 1];
    if Title(metadata[vec[|vec| - 1].0]) != t {
      LastVectorHit(metadata, init, t);
      var i :| 0 <= i < |init| && Title(metadata[init[i].0]) == t;
      assert vec[i] == init[i];
    }
  }

  /** `LastVectorScore` read from the front: the rest's last hit wins, else the first hit. */
  lemma {:induction false} LastVectorScoreCons(metadata: seq<Record>, vec: seq<(int, real)>, t: string)
    requires InCorpus(vec, |metadata|) && vec != []
    ensures LastVectorScore(metadata, vec, t)
         == if LastVectorScore(metadata, vec[1..], t).Some? then LastVectorScore(metadata, vec[1..], t)
            else if Title(metadata[vec[0].0]) == t then Some(vec[0].1)
            else None
  {
    if |vec| > 1 {
      LastVectorScoreCons(metadata, vec[..|vec| - 1], t);
      assert vec[..|vec| - 1][1..] == vec[1..][..|vec[1..]| - 1];
    }
  }

  /**
   * The first loop leaves a title present exactly when it was present before or a vector hit has it,
   * and its score is that of the last such hit, or the score it had.
   */
  lemma {:induction false} FuseVectorSpec(d: OD.Dict, metadata: seq<Record>, vec: seq<(int, real)>, alpha: real,
                                          t: string)
    requires OD.Valid(d) && InCorpus(vec, |metadata|)
    ensures t in FuseVector(d, metadata, vec, alpha).vals <==> t in d.vals || LastVectorScore(metadata, vec, t).Some?
    ensures OD.Get(FuseVector(d, metadata, vec, alpha), t, 0.0)
         == match LastVectorScore(metadata, vec, t)
            case Some(s) => VecTerm(alpha, s)
            case None => OD.Get(d, t, 0.0)
    decreases |vec|
  {
    if vec != [] {
      FuseVectorSpec(VectorStep(d, metadata, vec[0], alpha), metadata, vec[1..], alpha, t);
      LastVectorScoreCons(metadata, vec, t);
    }
  }

  /** The second loop adds to each title the sum of its lexical terms, and adds exactly the lexical titles. */
  lemma {:induction false} FuseLexicalSpec(d: OD.Dict, metadata: seq<Record>, lex: seq<(int, real)>,
                                           alpha: real, maxBm25: real, t: string)
    requires OD.Valid(d) && InCorpus(lex, |metadata|) && maxBm25 != 0.0
    ensures t in FuseLexical(d, metadata, lex, alpha, maxBm25).vals <==> t in d.vals || LexicalHas(metadata, lex, t)
    ensures OD.Get(FuseLexical(d, metadata, lex, alpha, maxBm25), t, 0.0)
         == OD.Get(d, t, 0.0) + LexicalSum(metadata, lex, t, alpha, maxBm25)
    decreases |lex|
  {
    if lex != [] {
      var rest := lex[1..];
      FuseLexicalSpec(LexicalStep(d, metadata, lex[0], alpha, maxBm25), metadata, rest, alpha, maxBm25, t);
      if LexicalHas(metadata, rest, t) {
        var i :| 0 <= i < |rest| && Title(metadata[rest[i].0]) == t;
        assert lex[i + 1] == rest[i];
      }
      if LexicalHas(metadata, lex, t) {
        var i :| 0 <= i < |lex| && Title(metadata[lex[i].0]) == t;
        if i > 0 {
          assert rest[i - 1] == lex[i];
        }
      }
    }
  }

  /**
   * A title is fused exactly when a vector or lexical hit has it, and its fused score is `alpha` times
   * its last vector score (0 without one) plus the sum of its lexical terms.
   */
  lemma FuseSpec(metadata: seq<Record>, vec: seq<(int, real)>, lex: seq<(int, real)>, alpha: real, maxBm25: real,
                 t: string)
    requires InCorpus(vec, |metadata|) && InCorpus(lex, |metadata|) && maxBm25 != 0.0
    ensures t in Fuse(metadata, vec, lex, alpha, maxBm25).vals
        <==> LastVectorScore(metadata, vec, t).Some? || LexicalHas(metadata, lex, t)
    ensures OD.Get(Fuse(metadata, vec, lex, alpha, maxBm25), t, 0.0)
         == (match LastVectorScore(metadata, vec, t)
             case Some(s) => VecTerm(alpha, s)
             case None => 0.0)
            + LexicalSum(metadata, lex, t, alpha, maxBm25)
  {
    FuseVectorSpec(OD.Empty(), metadata, vec, alpha, t);
    FuseLexicalSpec(FuseVector(OD.Empty(), metadata, vec, alpha), metadata, lex, alpha, maxBm25, t);
  }

  /** The first loop's first pass: its hit's title is set to the vector term. */
  lemma FuseVectorFirst(d: OD.Dict, metadata: seq<Record>, vec: seq<(int, real)>, alpha: real)
    requires OD.Valid(d) && InCorpus(vec, |metadata|) && vec != []
    ensures FuseVector(d, metadata, vec, alpha)
         == FuseVector(OD.Set(d, Title(metadata[vec[0].0]), VecTerm(alpha, vec[0].1)), metadata, vec[1..], alpha)
  {
  }

  /** The second loop's first pass: its hit's title gains the lexical term. */
  lemma FuseLexicalFirst(d: OD.Dict, metadata: seq<Record>, lex: seq<(int, real)>, alpha: real, maxBm25: real,
                         t: string, score: real)
    requires OD.Valid(d) && InCorpus(lex, |metadata|) && maxBm25 != 0.0 && lex != []
    requires t == Title(metadata[lex[0].0]) && score == OD.Get(d, t, 0.0) + LexTerm(alpha, lex[0].1, maxBm25)
    ensures FuseLexical(d, metadata, lex, alpha, maxBm25) == FuseLexical(OD.Set(d, t, score), metadata, lex[1..], alpha, maxBm25)
  {
    assert LexicalStep(d, metadata, lex[0], alpha, maxBm25) == OD.Set(d, t, score);
  }

  /** Stage 4.4 as the code runs it: the two loops filling `combined_scores`. */
  method FuseScores(metadata: seq<Record>, vec: seq<(int, real)>, lex: seq<(int, real)>, alpha: real, maxBm25: real)
    returns (d: OD.Dict)
    requires InCorpus(vec, |metadata|) && InCorpus(lex, |metadata|) && maxBm25 != 0.0
    ensures d == Fuse(metadata, vec, lex, alpha, maxBm25)
  {
    d := OD.Empty();
    ghost var afterVec := FuseVector(d, metadata, vec, alpha);
    var i := 0;
    while i < |vec|
      invariant 0 <= i <= |vec| && OD.Valid(d)
      invariant FuseVector(d, metadata, vec[i..], alpha) == afterVec
    {
      FuseVectorFirst(d, metadata, vec[i..], alpha);
      assert vec[i..][1..] == vec[i + 1..];
      d := OD.Set(d, Title(metadata[vec[i].0]), VecTerm(alpha, vec[i].1));
      i := i + 1;
    }
    ghost var final := FuseLexical(d, metadata, lex, alpha, maxBm25);
    var j := 0;
    while j < |lex|
      invariant 0 <= j <= |lex| && OD.Valid(d)
      invariant FuseLexical(d, metadata, lex[j..], alpha, maxBm25) == final
    {
      var t := Title(metadata[lex[j].0]);
      var score := OD.Get(d, t, 0.0) + LexTerm(alpha, lex[j].1, maxBm25);
      FuseLexicalFirst(d, metadata, lex[j..], alpha, maxBm25, t, score);
      assert lex[j..][1..] == lex[j + 1..];
      d := OD.Set(d, t, score);
      j := j + 1;
    }
  }
}
