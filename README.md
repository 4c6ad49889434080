# K-drama recommender: a verified model of its core

The system is a recommendation service for Korean dramas. A request names a drama or free text.
The service filters the catalogue on the request's filters and resolves the title: an exact
match, a fuzzy match, or free text. It then runs a semantic nearest-neighbour search and a BM25
lexical search over the filtered catalogue and fuses the two score lists. The fused list is ranked
and can be restricted to dramas similar to a named one. A `sort_by` field or a "top rated" order
can override the ranking. The list is cut to `top_n` and, when possible, re-ordered by a
cross-encoder.

Beside the pipeline sit three more components:

- **A per-user preference profile.** Each interaction (click, watchlist add, watched, optional
  rating) updates it: counters, an exponential moving average over five label -> score maps, a
  running rating mean, a log of recent interactions and viewing-pattern heuristics. Scores are
  then clamped to [0, 1] and pruned to the 50 best labels per map.
- **A personalization engine.** It boosts result scores by the user's genre, actor, director and
  theme preferences, re-sorts the results, adjusts the semantic/lexical weight to the spread of
  the user's genre scores, and explains a boost in words.
- **The text-cleaning helpers of the two Wikipedia scrapers.** These are reference removal,
  multi-line joining, whitespace collapsing and release-year extraction.

The Dafny modules follow that structure:

| module | models |
|---|---|
| `HybridSearch` (hybrid_search.dfy) | request parameters, catalogue filters, title resolution, the vector and lexical hit lists, score fusion |
| `Ranking` (ranking.dfy) | ranking by fused score, `similar_to`, `sort_by` / `top_rated`, the cross-encoder re-rank |
| `Pipeline` (pipeline.dfy) | `recommend` end to end |
| `UserProfile` (user_profile.dfy) | the profile record, its update helpers, and `ProfileStore`, the profile manager as a class over an in-memory map of profiles |
| `Personalization` (personalization.dfy) | boosts, re-ranking, per-user alpha, summaries |
| `WikiCleaning` (wiki_cleaning.dfy) | the Playwright scraper's helpers |
| `SeleniumCleaning` (selenium_cleaning.dfy) | the Selenium scraper's copy, and its equivalence to the Playwright one |
| `Records`, `OrderedDict`, `Sorting`, `Lists`, `PyStr`, `Wrappers` | drama records as string maps, insertion-ordered dictionaries, Python's stable `sorted`, list filtering, the Python string operations used, Option |

The external components are parameters of the model:

- the sentence-embedding model with the FAISS index;
- BM25;
- the fuzzy title matcher;
- the cross-encoder.

Each is a function value in `HybridSearch.Oracles`. The model states what the core does with
whatever these return.

Some behaviour is modelled as the code has it, even where it looks surprising:

- **The rating style is written to statistics.** The rating update writes `rating_style` into
  the profile's `statistics`. The `viewing_patterns.rating_style` set at creation is never
  updated. `UserProfile.Statistics.ratingStyle` carries the written one.
- **`clean_description` is not idempotent.** A bracketed span that crosses a line break survives
  reference removal. Whitespace collapsing then puts it on one line, so a second pass removes it:
  `"[a\nb]"` cleans to `"[a b]"`, which cleans to `"-"`. Idempotence is proved for input without
  line breaks, and the counterexample is proved as a lemma.
- **Mixed `sort_by` keys raise.** When `sort_by` names a field whose values are numeric-looking on
  some records and text on others, Python's sort compares a float with a str and raises. The
  model returns `Raised` for exactly that case.
- **A bad rating fails the top-rated order.** The top-rated order calls `float()` on each record's
  rating outside any `try`. An unparsable rating therefore raises, and so does the model.

## Model

| member | source | states |
|---|---|---|
| HybridSearch.TextFilterSpec | backend/app.py:140-166 | a case-insensitive substring filter keeps an order-preserving subsequence, and a record survives exactly when the filter text occurs in one of its aliased fields (or no filter is given) |
| HybridSearch.NumericFilterSpec | backend/app.py:167-186 | a numeric threshold filter leaves the list as it was when the threshold is absent or zero or any record's value fails to parse; otherwise it keeps exactly the records whose value is at least the threshold, in order |
| HybridSearch.EarlyFiltersSpec | backend/app.py:140-166 | the genre, director, publisher and description filters keep, in order, exactly the catalogue records that pass them |
| HybridSearch.ThresholdFiltersSpec | backend/app.py:167-186 | the rating-value and rating-count filters keep a subsequence, all of it when neither threshold is given; with parsable ratings (counts) every survivor reaches that threshold, and with both parsable they keep exactly the records reaching both |
| HybridSearch.NumericFilterMembers | backend/app.py:167-186 | when every value parses, a threshold filter keeps exactly the records that meet its threshold, all of them when the threshold is absent or zero |
| HybridSearch.LateFiltersSpec | backend/app.py:187-198 | the keyword and screenwriter filters keep, in order, exactly the records that pass them |
| HybridSearch.FilterCorpusSpec | backend/app.py:136-198 | the filtered catalogue is an order-preserving subsequence of the catalogue and the whole catalogue with no filter; without rating thresholds it holds exactly the records passing every text filter; when the ratings (counts) left by the text filters parse, every survivor reaches the rating (count) threshold, and with both parsable it holds exactly the records passing the text filters and both thresholds |
| HybridSearch.LastIndexOfTitle | backend/app.py:227 | the title -> index dictionary maps a title to the last catalogue position holding it, or to nothing |
| HybridSearch.FilteredIndices | backend/app.py:226-228 | one catalogue index per filtered record, in range, pointing at a record with the same title |
| HybridSearch.FilteredIndicesOf | backend/app.py:226-228 | the filtered index list is a valid index list for the filtered records |
| HybridSearch.FindTitleIgnoreCase | backend/app.py:231-233 | a record of the list whose title equals the query ignoring case, or none exactly when no record's title does |
| HybridSearch.FindTitleIgnoreCaseFirst | backend/app.py:231-233 | the record returned is the first match: it sits at a position before which no title equals the query ignoring case |
| HybridSearch.FindTitle | backend/app.py:243-245 | a record of the list with exactly the given title, or none exactly when there is none |
| HybridSearch.FindTitleFirst | backend/app.py:302 | the record `next` returns is the first one with exactly the title: none before its position has it |
| HybridSearch.FuzzyMatchTitle | backend/app.py:90-95 | the matcher's score is always returned, and its match exactly when the score is at least 70 |
| HybridSearch.ResolveQueryCases | backend/app.py:230-262 | an exact case-insensitive title match gives that drama's Title/Genre/Description/Cast document; otherwise a fuzzy match scoring at least 70 gives its document; otherwise the raw title is the query |
| HybridSearch.SearchK | backend/app.py:267 | the neighbour count lies within the catalogue, is 50 beyond the filtered count unless the catalogue is smaller, and so covers every filtered record |
| HybridSearch.VectorHitsSpec | backend/app.py:264-277 | kept neighbours are a subsequence of the retriever's list (its order), all inside the catalogue and the filtered index set; there are min(number of in-filter hits, top_n + 20) of them, and when fewer than top_n + 20 are kept every in-filter hit is kept |
| HybridSearch.LexicalHitsSpec | backend/app.py:279-285 | lexical hits are filtered indices carrying their own BM25 score, sorted by score descending; there are min(filtered count, top_n + 20) of them, and no filtered index left out scores higher than a kept one |
| HybridSearch.MaxScore | backend/app.py:289 | the maximum of the hit scores: attained by some hit, and no hit scores higher |
| HybridSearch.MaxBm25 | backend/app.py:288-291 | the BM25 normaliser is 1 for an empty list or a zero maximum, otherwise the maximum, and never 0 |
| HybridSearch.LexTermBounds | backend/app.py:295-298 | with alpha in [0, 1] and 0 <= score <= max, a lexical contribution lies in [0, 1 - alpha] |
| HybridSearch.LexTermsBounded | backend/app.py:288-298 | every lexical contribution of a non-negative hit list, normalised by its maximum, lies in [0, 1 - alpha] |
| HybridSearch.FuseVectorSpec | backend/app.py:293-294 | after the vector loop a title has a score exactly when it had one or is a hit's title, and the score is alpha times the last such hit's similarity |
| HybridSearch.FuseLexicalSpec | backend/app.py:295-298 | after the lexical loop a title has a score exactly when it had one or is a hit's title, and the score is the old one plus the sum of its normalised lexical contributions |
| HybridSearch.FuseSpec | backend/app.py:287-298 | a title is in the combined scores exactly when a vector or a lexical hit names it; its score is alpha times its last vector similarity (0 if none) plus the sum of (1 - alpha) * bm25 / max_bm25 over its lexical hits |
| HybridSearch.LastVectorHit | backend/app.py:293-294 | a title that has a vector score is the title of some vector hit |
| HybridSearch.FuseScores | backend/app.py:287-298 | the two fusion loops fill the insertion-ordered dictionary with exactly the scores of the fusion function |
| Ranking.FusedAboveOrder | backend/app.py:303 | descending combined score is a strict weak order, so the stable sort is well defined |
| Sorting.SortByStable | backend/app.py:303 | the sort is stable: the elements tied with any given element leave in the order they came in |
| Ranking.RankOrderSpec | backend/app.py:303 | the ranked pairs are a permutation of the combined scores' items, each a key with its own score, in non-increasing score order |
| Ranking.RecordsFor | backend/app.py:301-304 | each ranked title is replaced by the first filtered record carrying it; the lookup fails exactly when some title has no filtered record |
| Ranking.RankedSpec | backend/app.py:301-304 | when every combined title belongs to the filtered set, ranking succeeds with one filtered record per title, best combined score first |
| Ranking.SimilarTitlesSpec | backend/app.py:316-322 | a title is in the similar set exactly when a neighbour of the reference drama inside the filtered set carries it |
| Ranking.SimilarRestrictSpec | backend/app.py:306-323 | similar_to keeps a subsequence of the ranking; it changes nothing when absent or when its title is not in the filtered set; otherwise it keeps exactly the ranked dramas whose titles are in the similar set |
| Ranking.KeyBeforeOrder | backend/app.py:326-337 | the sort_by comparison, in either direction, is a strict weak order |
| Ranking.RecordKeyBeforeOrder | backend/app.py:326-337 | the sort_by comparison on records is a strict weak order |
| Ranking.RatedAboveOrder | backend/app.py:338-343 | descending rating is a strict weak order |
| Ranking.SortBySpec | backend/app.py:326-337 | sort_by raises exactly when numeric and text keys are mixed; otherwise the output is a permutation, sorted descending exactly when sort_order is "desc" and ascending otherwise |
| Ranking.TopRatedSpec | backend/app.py:338-343 | without sort_by, top_rated raises exactly when some rating fails to parse, and otherwise gives a permutation by parsed rating, best first; without top_rated the list is unchanged |
| Ranking.SortOverridePermutes | backend/app.py:325-343 | whenever an override succeeds, its output is a permutation of its input |
| Ranking.ZipSeconds | backend/app.py:350-355 | unzipping the (score, result) pairs gives back the results that got a score, in order: the first min(len(scores), len(results)) |
| Ranking.RerankAboveOrder | backend/app.py:352-354 | descending cross-encoder score is a strict weak order |
| Ranking.SecondsPermutation | backend/app.py:350-355 | reordering (score, result) pairs reorders their results the same way: the results of a permutation are a permutation of the results |
| Ranking.RerankSpec | backend/app.py:345-357 | with no cross-encoder, a result lacking a description, or a failing prediction, the truncated list is returned unchanged; otherwise the output is the results of a permutation of the (score, result) pairs, sorted by score descending, and so a permutation of the results that got a score |
| Ranking.RerankWithin | backend/app.py:345-357 | re-ranking never lengthens the list and never introduces a drama that was not in it |
| Pipeline.HitsInCorpus | backend/app.py:271-274 | hits restricted to filtered indices are valid catalogue positions |
| Pipeline.StageHitsFiltered | backend/app.py:264-285 | both hit lists of a request lie in the filtered index set and inside the catalogue |
| Pipeline.FusedTitlesFiltered | backend/app.py:287-304 | every title in the combined scores belongs to a filtered record |
| Pipeline.LastStagesWithin | backend/app.py:325-357 | after the overrides, truncation and re-ranking, at most top_n dramas remain, all from the list the overrides were given |
| Pipeline.RankedWithin | backend/app.py:301-304 | ranking the fused scores always succeeds and yields filtered records only |
| Pipeline.FinishSpec | backend/app.py:264-376 | the ranking stages raise only when sort_by or top_rated is requested; an answer echoes the query and filters, carries no message, holds at most top_n dramas, all from the filtered set |
| Pipeline.RecommendSpec | backend/app.py:109-376 | an empty filtered set answers no recommendations with the "No dramas match" message; a request raises only through an unresolvable fuzzy match or a failing override; otherwise at most top_n recommendations, each a drama of the filtered catalogue (so it passes every text filter and, by FilterCorpusSpec, every rating threshold that applies), and the query and filters echoed |
| UserProfile.NewProfile | backend/user_profile.py:59-87 | a fresh profile has five empty preference maps, zero counters, a 0.0 average, rating style "neutral", an empty log, and the user id and creation time given |
| UserProfile.CountInteraction | backend/user_profile.py:107-120 | counting an interaction keeps the statistics well-formed |
| UserProfile.CountInteractionExactlyOne | backend/user_profile.py:107-120 | the interaction total goes up by one, and exactly one of clicks, watchlist adds and watched goes up for those three kinds, none for any other kind |
| UserProfile.BaseWeight | backend/user_profile.py:110-120 | interaction weights lie in (0, 1], and an unknown kind weighs 0.5 |
| UserProfile.Weight | backend/user_profile.py:110-125 | without a rating the weight is the kind's weight; a rating in [0, 5] scales it into [0, that weight]; a rating of 5 leaves it unchanged |
| UserProfile.RatingStyle | backend/user_profile.py:278-284 | "generous" exactly when the average is at least 4.5, "critical" exactly when at most 3.5, "neutral" exactly in between |
| UserProfile.RecordRating | backend/user_profile.py:266-284 | the rating count goes up by one, the new average times the count is the old total plus the rating, the style follows the new average, and no other counter changes |
| UserProfile.RecordRatingTotal | backend/user_profile.py:266-276 | one rating adds itself to the running rating total |
| UserProfile.AverageIsMean | backend/user_profile.py:266-276 | after a run of ratings, the count grows by their number and the running total by their sum |
| UserProfile.AverageBounded | backend/user_profile.py:266-276 | if the old average and the new rating lie in [lo, hi], so does the new average |
| UserProfile.EmaStepBetween | backend/user_profile.py:173-176 | the moving-average step keeps a score in [0, 1] and moves it towards the weight, by 20% of the gap |
| UserProfile.BumpAllFrame | backend/user_profile.py:169-176 | updating a label list gives every non-empty label a score, leaves labels not on the drama untouched, and keeps the existing key order as a prefix |
| UserProfile.ApplyLabels | backend/user_profile.py:169-176 | the per-label loop computes exactly the label-map update function |
| UserProfile.GenreLabels | backend/user_profile.py:156-171 | genre labels are the stripped comma-free fields that, joined by commas, give the genre text back (unique by PyStr.SplitJoin), and none when the genre field is empty |
| UserProfile.ActorLabels | backend/user_profile.py:178-193 | actor labels are the first five of the comma-free fields that, joined by commas, give the cast text back, stripped; none for an empty cast |
| PyStr.SplitJoin | backend/user_profile.py:165 | splitting a join of separator-free fields gives the fields back, so the fields of a split are the only separator-free fields that join to the text |
| UserProfile.SingleLabel | backend/user_profile.py:199-210 | the director (and likewise the publisher, lines 253-264) is the one label of a drama when its field is non-empty, and there is no label otherwise |
| UserProfile.ThemeNamesDistinct | backend/user_profile.py:228-236 | the theme table names each theme once |
| UserProfile.DescriptionThemesSpec | backend/user_profile.py:238-242 | a theme is taken from the description exactly when one of its keywords occurs in the lowercased description |
| UserProfile.KeywordLabels | backend/user_profile.py:215-223 | one lower-case label per comma-free keyword field, the fields joining back to the keyword text by commas; none for an empty keyword text |
| UserProfile.ThemeLabels | backend/user_profile.py:212-242 | the theme labels are the keyword labels followed by the description's themes |
| UserProfile.LoveIsRomantic | backend/user_profile.py:228-242 | every description whose lowercased text mentions "love" yields the theme "romantic" |
| UserProfile.AddRecent | backend/user_profile.py:286-299 | the newest interaction is first, the older ones follow in order, and the log is capped at 50 |
| UserProfile.Trunc | backend/user_profile.py:315-317 | int() of a real truncates towards zero |
| UserProfile.BlendBetween | backend/user_profile.py:313-317 | the blended episode count lies between the old preference and the new count |
| UserProfile.AddYear | backend/user_profile.py:321-331 | the year list stays duplicate-free and holds min(5, years after appending) entries: the most recent old years in order, then a new year last; a known year leaves the last five old years |
| UserProfile.AnalyzePatterns | backend/user_profile.py:301-336 | viewing patterns stay well-formed; binge_watcher becomes true once 20 dramas are watched and is never reset; a drama without year or episode count leaves those patterns as they were |
| UserProfile.Clamp | backend/user_profile.py:353-354 | a clamped score lies in [0, 1], and a score already there is unchanged |
| UserProfile.ClampAll | backend/user_profile.py:353-354 | clamping a map keeps its keys and order and clamps each score into [0, 1] |
| UserProfile.ClampScores | backend/user_profile.py:353-354 | the clamping loop computes exactly the clamping function |
| UserProfile.ScoreAboveOrder | backend/user_profile.py:360 | descending score is a strict weak order |
| UserProfile.TopItems | backend/user_profile.py:380-381 | the top-n slice has min(n, size) items, with Python's meaning for a negative n |
| UserProfile.TopItemsSpec | backend/user_profile.py:360-361 | the top items are distinct keys with their own scores, best first, and no key left out scores higher than any kept one |
| UserProfile.Normalize | backend/user_profile.py:338-361 | after normalisation at most 50 labels remain, all scores lie in [0, 1], and each is the clamped old score |
| UserProfile.NormalizeKeepsHighest | backend/user_profile.py:356-361 | pruning keeps the highest-scoring labels: no dropped label's clamped score beats a kept one |
| UserProfile.NormalizeIdempotent | backend/user_profile.py:338-361 | normalising twice is normalising once |
| UserProfile.NormalizeValidUnchanged | backend/user_profile.py:338-361 | a map already clamped and within 50 labels is left as it is |
| UserProfile.NormalizeMap | backend/user_profile.py:343-361 | the in-place clamp-then-prune pass computes exactly the normalisation function |
| UserProfile.ArgMaxFirst | backend/user_profile.py:410 | max() over items picks the first item with the highest score |
| UserProfile.Persona | backend/user_profile.py:404-407 | an empty genre map gives "New Viewer" |
| UserProfile.PersonaSpec | backend/user_profile.py:399-418 | a non-empty genre map has a top genre, the first in insertion order with the highest score; it gives "<genre> Drama Enthusiast" at 0.8 or more, "<genre> Fan" in [0.6, 0.8) and "Diverse Viewer" below, which happens exactly when every genre scores below 0.6 |
| UserProfile.UpdateStatistics | backend/user_profile.py:107-125 | statistics stay well-formed and the interaction total goes up by one |
| UserProfile.UpdateStatisticsSpec | backend/user_profile.py:107-125 | one interaction bumps the total, exactly the counter of its kind, and the rating count and average only when a rating is given |
| UserProfile.UpdatePreferences | backend/user_profile.py:127-140 | the five per-kind update loops compute exactly the preference update function |
| UserProfile.NormalizeAll | backend/user_profile.py:343-361 | the loop over the five maps normalises each of them |
| UserProfile.NormalizePreferences | backend/user_profile.py:338-361 | after normalisation every preference map is clamped and within 50 labels |
| UserProfile.ApplyInteraction | backend/user_profile.py:89-154 | an update keeps the user id and creation time, stamps the update time, and leaves every preference map normalised |
| UserProfile.ApplyInteractionValid | backend/user_profile.py:89-154 | an update keeps a well-formed profile well-formed |
| UserProfile.ApplyInteractionLog | backend/user_profile.py:142-149 | the update logs the interaction first, caps the log, never clears binge_watcher, and updates the statistics as specified |
| UserProfile.GenresAfterUpdate | backend/user_profile.py:127-149 | the new genre map is the normalised moving-average update of the old one by the drama's genre labels at the interaction's weight |
| UserProfile.WatchedTwiceScenario | backend/user_profile.py:156-176 | two "watched" interactions rated 5 with a "Medical" drama take the Medical score to 0.6, then 0.68 |
| UserProfile.ProfileStore.constructor | backend/user_profile.py:29-31 | a new store holds no profiles |
| UserProfile.ProfileStore.Load | backend/user_profile.py:37-49 | a stored profile is returned as stored; an unknown user gets a fresh profile, which is not stored |
| UserProfile.ProfileStore.Save | backend/user_profile.py:51-57 | saving stores the profile under the user, stamped with the save time, and changes no other user |
| UserProfile.ProfileStore.UpdateFromInteraction | backend/user_profile.py:89-154 | the stored profile becomes the update of the loaded one, which is also returned, and no other user's profile changes |
| UserProfile.ProfileStore.TopPreferences | backend/user_profile.py:363-381 | an unknown preference kind gives no items; otherwise min(top_n, size) pairs of the loaded user's map with their own scores, distinct labels, best first, scores in [0, 1], and no label left out scores higher than a kept one |
| UserProfile.ProfileStore.Summary | backend/user_profile.py:383-397 | the top lists are get_top_preferences for genres, actors, directors and themes with 5, 5, 3 and 5 items, the persona is that of the loaded genres, the statistics are the loaded ones, and an unknown user is a "New Viewer" |
| Personalization.Matches | backend/personalization.py:104-107 | the matching scores are exactly the map's scores of the drama's labels |
| Personalization.MaxOf | backend/personalization.py:113 | max() is attained and bounds every element |
| Personalization.BestMatch | backend/personalization.py:104-113 | no match exactly when no label is in the map; otherwise the best score of a matching label |
| Personalization.GenreBoostBest | backend/personalization.py:83-116 | the genre boost is 0 without a matching genre, and otherwise 0.5 times the highest matching genre score |
| Personalization.ActorBoostBest | backend/personalization.py:118-151 | the actor boost is 0 without a matching cast member (all cast, no cap), and otherwise 0.3 times the highest matching actor score |
| Personalization.DirectorBoost | backend/personalization.py:153-174 | the director boost is 0.2 times the director's score when the director is a key of the map, and 0 otherwise |
| Personalization.ThemeMatchKeys | backend/personalization.py:211-215 | the matched themes are exactly the map's keys found among the drama's themes, each once |
| Personalization.ThemeMatches | backend/personalization.py:176-215 | a theme matches exactly when it is a key of the map and a keyword or description theme of the drama |
| Personalization.MeanBetween | backend/personalization.py:220-221 | the average of values in [lo, hi] lies in [lo, hi] |
| Personalization.ThemeBoostMean | backend/personalization.py:176-224 | with at least one matched theme, the theme boost is 0.4 times the sum of the matched themes' scores over their number, their mean |
| Personalization.ThemeBoostBetween | backend/personalization.py:176-224 | the theme boost is 0 without matches, and otherwise lies between 0.4 times the lowest and 0.4 times the highest matched score |
| Personalization.Annotate | backend/personalization.py:53-76 | annotating keeps the drama and its score and records a boost |
| Personalization.AnnotateScore | backend/personalization.py:53-65 | the base score defaults to 0.5 and the multiplier is 1 plus the four category boosts |
| Personalization.AnnotateBounds | backend/personalization.py:27-30 | with scores in [0, 1] each category boost lies in [0, its factor] and the multiplier in [1, 2.4] |
| Personalization.BoostsBounded | backend/personalization.py:83-224 | with scores in [0, 1] the genre, actor, director and theme boosts lie in [0, 0.5], [0, 0.3], [0, 0.2] and [0, 0.4] |
| Personalization.PersonalizedAboveOrder | backend/personalization.py:79 | descending personalised score is a strict weak order |
| Personalization.AnnotateAllSpec | backend/personalization.py:52-76 | annotating keeps every result's drama and score in place and gives each a boost whose base score defaults to 0.5 and whose multiplier is one plus its four boosts |
| Personalization.PersonalizeSpec | backend/personalization.py:46-81 | with a profile and boosting on, the output is a permutation of the annotated results, all boosted, sorted by personalised score descending |
| Personalization.PersonalizeKeepsDramas | backend/personalization.py:46-81 | without a profile or with boosting off the list is returned as it was; otherwise the same number of results, each on an input drama |
| Personalization.AnnotateInPlace | backend/personalization.py:52-76 | the annotate loop replaces every array element, in place and in order, by its annotation, leaving the array equal to the annotated list |
| Personalization.PersonalizeResults | backend/personalization.py:32-81 | the in-place annotate-then-sort pass over the result array computes exactly the personalisation function |
| Personalization.SumSquares | backend/personalization.py:284 | a sum of squared deviations is non-negative |
| Personalization.Variance | backend/personalization.py:283-284 | the variance of the genre scores is non-negative |
| Personalization.UserSpecificAlpha | backend/personalization.py:226-266 | alpha is unchanged without a profile or genre scores, stays in [0.3, 0.95] when it starts there, and stays in the documented range [0, 1] when it starts there |
| Personalization.AlphaDirection | backend/personalization.py:251-266 | diverse tastes raise alpha up to at most 0.95, focused tastes lower it to at least 0.3, moderate tastes leave it |
| Personalization.EvenScoresAreFocused | backend/personalization.py:268-291 | genre scores that are all equal have diversity 0 and count as focused |
| Personalization.Reasons | backend/personalization.py:312-328 | each reason is given exactly when its category's boost exceeds its threshold (0.1 genre, 0.05 the others) |
| Personalization.SummaryCases | backend/personalization.py:293-336 | "Standard recommendation" exactly without boost details or with a multiplier of at most 1.05; "Recommended for you" exactly when boosted beyond that with no reason; otherwise "Recommended because it" and the reasons |
| Personalization.ReasonPhraseCases | backend/personalization.py:333-336 | one reason is given alone, two as "a and b", three as "a, b and c", four as "a, b, c and d" |
| Personalization.TwoReasonSummary | backend/personalization.py:303-336 | any boosted result with exactly two reasons is summarised as "Recommended because it <a> and <b>" |
| WikiCleaning.CloseAt | extra/data_scrapper/wiki_scrapper_playwright.py:13 | the lazy `.*?` scan stops at the first "]" or line break |
| WikiCleaning.RemoveRefs | extra/data_scrapper/wiki_scrapper_playwright.py:11-13 | reference removal never lengthens the text |
| WikiCleaning.RemoveRefsChars | extra/data_scrapper/wiki_scrapper_playwright.py:11-13 | reference removal introduces no character |
| WikiCleaning.RemoveRefsNoRefs | extra/data_scrapper/wiki_scrapper_playwright.py:11-13 | no bracketed span within a line survives reference removal |
| WikiCleaning.RemoveRefsFixedIff | extra/data_scrapper/wiki_scrapper_playwright.py:11-13 | reference removal leaves a text unchanged exactly when it has no bracketed span within a line |
| WikiCleaning.RemoveRefsIdempotent | extra/data_scrapper/wiki_scrapper_playwright.py:11-13 | removing references twice is removing them once |
| WikiCleaning.RemoveRefsSubsequence | extra/data_scrapper/wiki_scrapper_playwright.py:11-13 | the output is a subsequence of the input |
| WikiCleaning.SplitLinesNoBreaks | extra/data_scrapper/wiki_scrapper_playwright.py:20 | splitting on runs of line breaks leaves no line break in any part |
| WikiCleaning.NonBlankStripped | extra/data_scrapper/wiki_scrapper_playwright.py:21 | the kept parts are non-empty and stripped |
| WikiCleaning.CleanMultiline | extra/data_scrapper/wiki_scrapper_playwright.py:15-22 | missing, "n/a" or "na" input gives "-"; the output is never empty and holds no line break |
| WikiCleaning.SplitLinesBlank | extra/data_scrapper/wiki_scrapper_playwright.py:19-21 | every line of an all-whitespace text strips to nothing, so no line survives |
| WikiCleaning.CleanMultilineBlank | extra/data_scrapper/wiki_scrapper_playwright.py:19-22 | a text that is all whitespace once references are removed gives "-" |
| WikiCleaning.MultilineJoinShape | extra/data_scrapper/wiki_scrapper_playwright.py:19-22 | the joined parts hold no line break, and are non-empty when some part survives |
| WikiCleaning.SplitLinesJoin | extra/data_scrapper/wiki_scrapper_playwright.py:20 | splitting lines joined by newlines gives the lines back |
| WikiCleaning.CleanMultilineRoundTrip | extra/data_scrapper/wiki_scrapper_playwright.py:15-22 | stripped, reference-free lines joined by newlines clean to the same lines joined by ", " |
| WikiCleaning.CollapseSpaces | extra/data_scrapper/wiki_scrapper_playwright.py:29 | after collapsing, the only whitespace is single spaces |
| WikiCleaning.CleanDescription | extra/data_scrapper/wiki_scrapper_playwright.py:24-30 | empty input gives "-"; the output is non-empty, has no leading or trailing whitespace and no two adjacent whitespace characters |
| WikiCleaning.CleanDescriptionBlank | extra/data_scrapper/wiki_scrapper_playwright.py:24-30 | a description that is all whitespace once references are removed gives "-" |
| WikiCleaning.CleanDescriptionIdempotent | extra/data_scrapper/wiki_scrapper_playwright.py:24-30 | on text without line breaks, cleaning twice is cleaning once |
| WikiCleaning.TidyIsClean | extra/data_scrapper/wiki_scrapper_playwright.py:24-30 | a tidy text without bracket pairs is its own cleaning |
| WikiCleaning.CleanDescriptionNotIdempotent | extra/data_scrapper/wiki_scrapper_playwright.py:24-30 | "[a\nb]" cleans to "[a b]", which cleans to "-" |
| WikiCleaning.FindYears | extra/data_scrapper/wiki_scrapper_playwright.py:37 | every match of `(?:19\|20)\d{2}` is a four-digit 19xx or 20xx year occurring in the text |
| WikiCleaning.ExtractYearsFromRelease | extra/data_scrapper/wiki_scrapper_playwright.py:32-39 | missing, "n/a", "na" or "-" input gives "-", and so does text with no year |
| WikiCleaning.ReleaseYearsShape | extra/data_scrapper/wiki_scrapper_playwright.py:36-39 | the extracted years are distinct 19xx/20xx years occurring in the reference-free text |
| WikiCleaning.ReleaseYearsOrder | extra/data_scrapper/wiki_scrapper_playwright.py:37-38 | the extracted years appear in order of first occurrence |
| WikiCleaning.FindYearsComplete | extra/data_scrapper/wiki_scrapper_playwright.py:37 | the scan finds nothing exactly when no year occurs in the text; otherwise its first year is the leftmost occurrence and the rest are the matches in the text after it |
| WikiCleaning.FindYearsJoin | extra/data_scrapper/wiki_scrapper_playwright.py:37 | scanning years joined by ", " finds exactly those years |
| WikiCleaning.ExtractYearsRoundTrip | extra/data_scrapper/wiki_scrapper_playwright.py:32-39 | a list of distinct years joined by ", " extracts to itself |
| SeleniumCleaning.FindYearCenturies | extra/data_scrapper/wiki_scrapper_selenium.py:657 | the capture-group scan returns only "19" or "20" |
| SeleniumCleaning.CenturiesMatchYears | extra/data_scrapper/wiki_scrapper_selenium.py:657-662 | the capture-group scan and the full-year scan find the same matches: one century per year, its first two digits |
| SeleniumCleaning.ExtractYearsFromRelease | extra/data_scrapper/wiki_scrapper_selenium.py:651-664 | missing, "n/a", "na" or "-" input gives "-", and so does text in which the capture-group scan finds nothing |
| SeleniumCleaning.SameAsPlaywright | extra/data_scrapper/wiki_scrapper_selenium.py:651-664 | the Selenium year extraction returns the same string as the Playwright one on every input |
| SeleniumCleaning.DedupeEmpty | extra/data_scrapper/wiki_scrapper_selenium.py:659-663 | deduplication is empty exactly when its input is |

## Left out

- The embedding model, its cache, FAISS search, BM25 scoring, the rapidfuzz matcher and the cross-encoder are foreign libraries. They are function parameters of the model (`HybridSearch.Oracles`), so nothing is claimed about their results beyond what the core does with them.
- Model loading, the FastAPI application, CORS and its routes are HTTP plumbing and are not modelled.
- The JSON profile files and `os.makedirs` are file I/O. The profile store is a `map` from user id to profile, and a load of an unknown user does not touch it.
- Timestamps from `datetime.now()` are an opaque `now` argument.
- The global engine and store singletons are not modelled.
- Scores are `real`: no floating-point rounding, infinities or NaN.
- `float()` and `int()` on record fields are ASCII decimal parsers without exponents, `inf`, `nan` or underscores.
- Lowercasing, `str.strip()` (with `str.isspace`) and the `\s`/`\d` regex classes are ASCII only: for example, U+00A0 and U+3000 are not stripped.
- Records are string -> string maps. The `isinstance` list branches for genres, cast and keywords (list-valued fields) are not modelled.
- A record without a "Title" is read as having the empty title; the service builds its title list from every record at start-up and cannot run on such a catalogue.
- The numeric filter thresholds arrive already parsed as reals. A threshold string that fails `float()` is not modelled; the failure of a record's value is.
- A profile is `Option<Preferences>` in the personalization engine; an empty profile dict is modelled as no profile.
- The personalised score, multiplier and boost details are written into each result dict; here they are the fields of a `Boost` value and the personalised score is derived from them.
- Aliasing between the result dicts and other references to them is not modelled.
- `_calculate_preference_diversity` uses `math.sqrt`. The model compares four times the variance with 0.49 and 0.09, which decides the same thresholds (0.7 and 0.3) without a square root.
- UserProfile.Weight: bounded only for ratings in [0, 5], because the weight divides the rating by 5 although the docstring speaks of ratings from 0 to 10.
- WikiCleaning.CleanDescriptionIdempotent: stated only for text without line breaks, because `clean_description` is not idempotent on a bracketed span that crosses a line break (WikiCleaning.CleanDescriptionNotIdempotent).
- HybridSearch.ResolveQueryCases: a fuzzy match naming a title outside the filtered list makes the source fail on `None`; the model returns `Raised` there and the lemma does not describe that case further.
- The browser and HTTP scraping code, `get_description_fallback`, the HTML extractor, the debugging script, the dataset merger, the Streamlit frontend and the test scripts are outside the core.
- Concurrent updates of the same profile file have no locking in the source and are not modelled.
