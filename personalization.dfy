/**
 * The personalisation engine: boosts each recommendation's score by how well the drama matches
 * the user's learnt preferences, re-ranks by the boosted score, adapts the semantic/lexical
 * weight `alpha` to how spread out the user's genre tastes are, and explains a boost in words.
 */
module Personalization {
  import opened Wrappers
  import opened PyStr
  import opened Sorting
  import OD = OrderedDict
  import opened Records
  import UP = UserProfile

  const GenreBoostFactor := 0.5
  const ActorBoostFactor := 0.3
  const DirectorBoostFactor := 0.2
  const ThemeBoostFactor := 0.4

  datatype BoostDetails = BoostDetails(genre: real, actor: real, director: real, theme: real)

  /**
   * The fields personalisation writes into a result. The personalised score it also writes is
   * always the base score times the multiplier, so it is derived here rather than stored.
   */
  datatype Boost = Boost(baseScore: real, multiplier: real, details: BoostDetails)
  {
    function PersonalizedScore(): real
    {
      baseScore * multiplier
    }
  }

  /** A recommendation: the drama's text fields, its `score` when it has one, and the boost written into it. */
  datatype Scored = Scored(drama: Record, score: Option<real>, boost: Option<Boost>)

  // ---------------------------------------------------------------------------
  // Boosts
  // ---------------------------------------------------------------------------

  /** `[prefs[l] for l in labels if l in prefs]` */
  function Matches(labels: seq<string>, d: OD.Dict): (ms: seq<real>)
    ensures forall x :: x in ms ==> exists l :: l in labels && l in d.vals && x == d.vals[l]
    ensures forall l :: l in labels && l in d.vals ==> d.vals[l] in ms
  {
    if labels == [] then []
    else
      var rest := Matches(labels[..|labels| - 1], d);
      var l := labels[|labels| - 1];
      assert forall m :: m in labels ==> m in labels[..|labels| - 1] || m == l;
      if l in d.vals then rest + [d.vals[l]] else rest
  }

  function MaxOf(xs: seq<real>): (m: real)
    requires xs != []
    ensures m in xs
    ensures forall x :: x in xs ==> x <= m
  {
    if |xs| == 1 then xs[0]
    else
      var m := MaxOf(xs[..|xs| - 1]);
      assert forall x :: x in xs ==> x in xs[..|xs| - 1] || x == xs[|xs| - 1];
      if xs[|xs| - 1] > m then xs[|xs| - 1] else m
  }

  /** The highest score among the labels the map knows, or `None` when it knows none of them. */
  function BestMatch(labels: seq<string>, d: OD.Dict): (m: Option<real>)
    ensures m.None? <==> forall l :: l in labels ==> l !in d.vals
    ensures m.Some? ==> exists l :: l in labels && l in d.vals && m.value == d.vals[l]
    ensures m.Some? ==> forall l :: l in labels && l in d.vals ==> d.vals[l] <= m.value
  {
    var ms := Matches(labels, d);
    if ms == [] then None
    else
      var m := MaxOf(ms);
      assert exists l :: l in labels && l in d.vals && m == d.vals[l];
      Some(m)
  }

  /**
   * The highest score among the labels the map knows, 0 when it knows none of them or is empty:
   * the best-match boosts before their factor.
   */
  function BestScore(labels: seq<string>, d: OD.Dict): (m: real)
    ensures (forall l :: l in labels ==> l !in d.vals) ==> m == 0.0
    ensures (exists l :: l in labels && l in d.vals) ==>
      (exists l :: l in labels && l in d.vals && m == d.vals[l])
      && (forall l :: l in labels && l in d.vals ==> d.vals[l] <= m)
  {
    if d.vals == map[] then 0.0
    else
      match BestMatch(labels, d)
      case None => 0.0
      case Some(m) => m
  }

  /** Every cast name, stripped: the boost looks past the first five. */
  function CastLabels(drama: Record): seq<string>
  {
    var text := Get2(drama, "Cast", "cast", "");
    if text == [] then [] else StripAll(Split(text, ','))
  }

  /** `_calculate_genre_boost`: the best score among the drama's genres, times 0.5. */
  function GenreBoost(drama: Record, genres: OD.Dict): real
  {
    BestScore(UP.GenreLabels(drama), genres) * GenreBoostFactor
  }

  /**
   * The genre boost is 0 when the map knows none of the drama's genres, otherwise 0.5 times the
   * score of one genre it knows, and at least 0.5 times each of their scores.
   */
  lemma GenreBoostBest(drama: Record, genres: OD.Dict)
    ensures var ls := UP.GenreLabels(drama);
      (forall l :: l in ls ==> l !in genres.vals) ==> GenreBoost(drama, genres) == 0.0
    ensures var ls := UP.GenreLabels(drama);
      (exists l :: l in ls && l in genres.vals) ==>
        (exists l :: l in ls && l in genres.vals && GenreBoost(drama, genres) == GenreBoostFactor * genres.vals[l])
        && (forall l :: l in ls && l in genres.vals ==> GenreBoostFactor * genres.vals[l] <= GenreBoost(drama, genres))
  {
    var ls := UP.GenreLabels(drama);
    var m := BestScore(ls, genres);
    var b := GenreBoost(drama, genres);
    assert b == m * GenreBoostFactor;
    if exists l :: l in ls && l in genres.vals {
      var w :| w in ls && w in genres.vals && m == genres.vals[w];
      assert b == GenreBoostFactor * genres.vals[w];
      forall l | l in ls && l in genres.vals
        ensures GenreBoostFactor * genres.vals[l] <= b
      {
        assert genres.vals[l] <= m;
      }
    }
  }

  /** `_calculate_actor_boost`: the best score among the drama's cast, times 0.3. */
  function ActorBoost(drama: Record, actors: OD.Dict): real
  {
    BestScore(CastLabels(drama), actors) * ActorBoostFactor
  }

  /**
   * The actor boost is 0 when the map knows none of the drama's cast, otherwise 0.3 times the
   * score of one actor it knows, and at least 0.3 times each of their scores.
   */
  lemma ActorBoostBest(drama: Record, actors: OD.Dict)
    ensures var ls := CastLabels(drama);
      (forall l :: l in ls ==> l !in actors.vals) ==> ActorBoost(drama, actors) == 0.0
    ensures var ls := CastLabels(drama);
      (exists l :: l in ls && l in actors.vals) ==>
        (exists l :: l in ls && l in actors.vals && ActorBoost(drama, actors) == ActorBoostFactor * actors.vals[l])
        && (forall l :: l in ls && l in actors.vals ==> ActorBoostFactor * actors.vals[l] <= ActorBoost(drama, actors))
  {
    var ls := CastLabels(drama);
    var m := BestScore(ls, actors);
    var b := ActorBoost(drama, actors);
    assert b == m * ActorBoostFactor;
    if exists l :: l in ls && l in actors.vals {
      var w :| w in ls && w in actors.vals && m == actors.vals[w];
      assert b == ActorBoostFactor * actors.vals[w];
      forall l | l in ls && l in actors.vals
        ensures ActorBoostFactor * actors.vals[l] <= b
      {
        assert actors.vals[l] <= m;
      }
    }
  }

  /** `_calculate_director_boost`: a single lookup of the whole director text. */
  function DirectorBoost(drama: Record, directors: OD.Dict): (b: real)
    ensures var name := Get2(drama, "Director", "director", "");
      && (name in directors.vals && name != "" ==> b == DirectorBoostFactor * directors.vals[name])
      && (name !in directors.vals || name == "" ==> b == 0.0)
  {
    var name := Get2(drama, "Director", "director", "");
    if directors.vals == map[] || name == [] || name !in directors.vals then 0.0
    else directors.vals[name] * DirectorBoostFactor
  }

  /** The drama's lower-cased, stripped keywords, as a set. */
  function KeywordThemes(drama: Record): set<string>
  {
    var keywords := Get(drama, "keywords", "");
    if keywords == [] then {} else set k | k in LowerAll(StripAll(Split(keywords, ',')))
  }

  /** The drama's themes: its keywords, and every theme of the map occurring in its lower-cased description. */
  function DramaThemes(drama: Record, themes: OD.Dict): set<string>
  {
    var description := Get2(drama, "Description", "description", "");
    KeywordThemes(drama)
      + (if description == [] then {} else set k | k in themes.keys && Contains(Lower(description), k))
  }

  /** The map's keys, in order, that are drama themes. */
  function ThemeMatchKeys(keys: seq<string>, found: set<string>, vals: map<string, real>): (ks: seq<string>)
    ensures forall k :: k in ks <==> k in keys && k in found && k in vals
    ensures Distinct(keys) ==> Distinct(ks)
  {
    if keys == [] then []
    else
      var rest := ThemeMatchKeys(keys[..|keys| - 1], found, vals);
      var k := keys[|keys| - 1];
      assert forall m :: m in keys <==> m in keys[..|keys| - 1] || m == k;
      if k in found && k in vals then rest + [k] else rest
  }

  function ScoresOf(ks: seq<string>, vals: map<string, real>): (ms: seq<real>)
    requires forall k :: k in ks ==> k in vals
    ensures |ms| == |ks|
    ensures forall i :: 0 <= i < |ks| ==> ms[i] == vals[ks[i]]
  {
    seq(|ks|, i requires 0 <= i < |ks| => vals[ks[i]])
  }

  /** The map's keys, in order, that are themes of the drama. */
  function ThemeMatches(drama: Record, themes: OD.Dict): (ks: seq<string>)
    ensures forall k :: k in ks <==> k in themes.keys && k in themes.vals && k in DramaThemes(drama, themes)
  {
    ThemeMatchKeys(themes.keys, DramaThemes(drama, themes), themes.vals)
  }

  function Mean(xs: seq<real>): real
    requires xs != []
  {
    UP.Sum(xs) / (|xs| as real)
  }

  /**
   * `_calculate_theme_boost`: the average score of the drama's themes the map knows, each theme
   * counted once, times 0.4.
   */
  function ThemeBoost(drama: Record, themes: OD.Dict): real
  {
    if themes.vals == map[] then 0.0
    else
      var ks := ThemeMatches(drama, themes);
      if ks == [] then 0.0
      else Mean(ScoresOf(ks, themes.vals)) * ThemeBoostFactor
  }

  lemma {:induction false} SumBounds(xs: seq<real>, lo: real, hi: real)
    requires forall i :: 0 <= i < |xs| ==> lo <= xs[i] <= hi
    ensures lo * (|xs| as real) <= UP.Sum(xs) <= hi * (|xs| as real)
  {
    if xs != [] {
      SumBounds(xs[..|xs| - 1], lo, hi);
    }
  }

  /** A mean lies between any lower and upper bound of its terms. */
  lemma MeanBetween(xs: seq<real>, lo: real, hi: real)
    requires xs != []
    requires forall i :: 0 <= i < |xs| ==> lo <= xs[i] <= hi
    ensures lo <= Mean(xs) <= hi
  {
    SumBounds(xs, lo, hi);
    var n := |xs| as real;
    var s := UP.Sum(xs);
    assert lo * n <= s <= hi * n;
    assert Mean(xs) == s / n;
  }

  /**
   * The theme boost is 0.4 times the mean of the matched scores: 0.4 times their sum over the
   * number of matched themes.
   */
  lemma ThemeBoostMean(drama: Record, themes: OD.Dict)
    ensures ThemeMatches(drama, themes) != [] ==>
      ThemeBoost(drama, themes)
      == ThemeBoostFactor * (UP.Sum(ScoresOf(ThemeMatches(drama, themes), themes.vals)) / (|ThemeMatches(drama, themes)| as real))
  {
    var ks := ThemeMatches(drama, themes);
    if ks != [] {
      assert ks[0] in themes.vals;
    }
  }

  /**
   * The theme boost is 0 when the drama has no theme the map knows, and otherwise lies between
   * 0.4 times the lowest and 0.4 times the highest matched score.
   */
  lemma ThemeBoostBetween(drama: Record, themes: OD.Dict, lo: real, hi: real)
    requires forall k :: k in ThemeMatches(drama, themes) ==> lo <= themes.vals[k] <= hi
    ensures ThemeMatches(drama, themes) == [] ==> ThemeBoost(drama, themes) == 0.0
    ensures ThemeMatches(drama, themes) != [] ==>
      ThemeBoostFactor * lo <= ThemeBoost(drama, themes) <= ThemeBoostFactor * hi
  {
    var ks := ThemeMatches(drama, themes);
    if ks != [] {
      assert ks[0] in themes.vals;
      MeanBetween(ScoresOf(ks, themes.vals), lo, hi);
    }
  }

  /** The four boosts and the score of one result, as `personalize_results` records them. */
  function Annotate(r: Scored, prefs: UP.Preferences): (q: Scored)
    ensures q.drama == r.drama && q.score == r.score && q.boost.Some?
  {
    var base := r.score.GetOr(0.5);
    var g := GenreBoost(r.drama, prefs.genres);
    var a := ActorBoost(r.drama, prefs.actors);
    var d := DirectorBoost(r.drama, prefs.directors);
    var t := ThemeBoost(r.drama, prefs.themes);
    var total := 1.0 + g + a + d + t;
    r.(boost := Some(Boost(base, total, BoostDetails(g, a, d, t))))
  }

  /**
   * The base score is the result's own score, 0.5 when it has none, and the multiplier is one
   * plus the four boosts.
   */
  lemma AnnotateScore(r: Scored, prefs: UP.Preferences)
    ensures var b := Annotate(r, prefs).boost.value;
      && b.baseScore == r.score.GetOr(0.5)
      && b.multiplier == 1.0 + b.details.genre + b.details.actor + b.details.director + b.details.theme
  {
  }

  /**
   * With every preference score in [0, 1], each boost lies within [0, its factor] and the
   * multiplier within [1, 2.4].
   */
  lemma AnnotateBounds(r: Scored, prefs: UP.Preferences)
    requires UP.PrefsValid(prefs)
    ensures var b := Annotate(r, prefs).boost.value;
      && 0.0 <= b.details.genre <= GenreBoostFactor
      && 0.0 <= b.details.actor <= ActorBoostFactor
      && 0.0 <= b.details.director <= DirectorBoostFactor
      && 0.0 <= b.details.theme <= ThemeBoostFactor
      && 1.0 <= b.multiplier <= 2.4
  {
    BoostsBounded(r.drama, prefs);
  }

  lemma BoostsBounded(drama: Record, prefs: UP.Preferences)
    requires UP.PrefsValid(prefs)
    ensures 0.0 <= GenreBoost(drama, prefs.genres) <= GenreBoostFactor
    ensures 0.0 <= ActorBoost(drama, prefs.actors) <= ActorBoostFactor
    ensures 0.0 <= DirectorBoost(drama, prefs.directors) <= DirectorBoostFactor
    ensures 0.0 <= ThemeBoost(drama, prefs.themes) <= ThemeBoostFactor
  {
    GenreBoostBest(drama, prefs.genres);
    ActorBoostBest(drama, prefs.actors);
    ThemeBoostBetween(drama, prefs.themes, 0.0, 1.0);
  }

  // ---------------------------------------------------------------------------
  // Re-ranking
  // ---------------------------------------------------------------------------

  /** `x.get("personalized_score", 0)` */
  function SortKey(r: Scored): real
  {
    if r.boost.Some? then r.boost.value.PersonalizedScore() else 0.0
  }

  /** The goes-before relation of the descending sort on the personalised score. */
  predicate PersonalizedAbove(a: Scored, b: Scored)
  {
    SortKey(a) > SortKey(b)
  }

  lemma PersonalizedAboveOrder()
    ensures StrictWeakOrder(PersonalizedAbove)
  {
  }

  function AnnotateAll(results: seq<Scored>, prefs: UP.Preferences): (rs: seq<Scored>)
    ensures |rs| == |results|
    ensures forall i :: 0 <= i < |rs| ==> rs[i] == Annotate(results[i], prefs)
  {
    seq(|results|, i requires 0 <= i < |results| => Annotate(results[i], prefs))
  }

  /**
   * Annotating the list keeps every result's drama and score in place and gives each a boost whose
   * base score defaults to 0.5 and whose multiplier is one plus its four boosts.
   */
  lemma AnnotateAllSpec(results: seq<Scored>, prefs: UP.Preferences)
    ensures var rs := AnnotateAll(results, prefs);
      forall i :: 0 <= i < |rs| ==>
        && rs[i].drama == results[i].drama && rs[i].score == results[i].score && rs[i].boost.Some?
        && rs[i].boost.value.baseScore == results[i].score.GetOr(0.5)
        && rs[i].boost.value.multiplier == 1.0 + rs[i].boost.value.details.genre + rs[i].boost.value.details.actor
             + rs[i].boost.value.details.director + rs[i].boost.value.details.theme
  {
    var rs := AnnotateAll(results, prefs);
    forall i | 0 <= i < |rs| ensures rs[i].boost.Some? && rs[i].boost.value.baseScore == results[i].score.GetOr(0.5) {
      AnnotateScore(results[i], prefs);
    }
  }

  /**
   * `personalize_results`: unchanged without a profile or with boosting off; otherwise every
   * result annotated, then sorted by personalised score, best first, ties in input order.
   */
  function Personalize(results: seq<Scored>, profile: Option<UP.Preferences>, applyBoosting: bool): seq<Scored>
  {
    if profile.None? || !applyBoosting then results
    else SortBy(AnnotateAll(results, profile.value), PersonalizedAbove)
  }

  /**
   * With a profile and boosting on, the output is a permutation of the annotated input, every
   * result carries its boost, and the personalised scores never increase down the list.
   */
  lemma PersonalizeSpec(results: seq<Scored>, prefs: UP.Preferences)
    ensures var out := Personalize(results, Some(prefs), true);
      && multiset(out) == multiset(AnnotateAll(results, prefs))
      && (forall i :: 0 <= i < |out| ==> out[i].boost.Some?)
      && (forall i, j :: 0 <= i < j < |out| ==> SortKey(out[i]) >= SortKey(out[j]))
  {
    var ann := AnnotateAll(results, prefs);
    var out := Personalize(results, Some(prefs), true);
    PersonalizedAboveOrder();
    SortBySorted(ann, PersonalizedAbove);
    forall i | 0 <= i < |out| ensures out[i].boost.Some? {
      assert out[i] in multiset(ann);
    }
  }

  /**
   * The re-ranking keeps as many results as it was given, each on a drama of the input; without
   * a profile or with boosting off it hands the list back untouched.
   */
  lemma PersonalizeKeepsDramas(results: seq<Scored>, profile: Option<UP.Preferences>, applyBoosting: bool)
    ensures profile.None? || !applyBoosting ==> Personalize(results, profile, applyBoosting) == results
    ensures |Personalize(results, profile, applyBoosting)| == |results|
    ensures forall r :: r in Personalize(results, profile, applyBoosting) ==>
      exists i :: 0 <= i < |results| && r.drama == results[i].drama
  {
    var out := Personalize(results, profile, applyBoosting);
    if profile.Some? && applyBoosting {
      var ann := AnnotateAll(results, profile.value);
      forall r | r in out ensures exists i :: 0 <= i < |results| && r.drama == results[i].drama {
        assert r in multiset(ann);
        var i :| 0 <= i < |ann| && ann[i] == r;
      }
    }
  }

  /** `personalize_results` on the result list: annotates each result in place, then sorts the list in place. */
  method PersonalizeResults(results: array<Scored>, profile: Option<UP.Preferences>, applyBoosting: bool)
    modifies results
    ensures results[..] == Personalize(old(results[..]), profile, applyBoosting)
  {
    if profile.None? || !applyBoosting {
      return;
    }
    AnnotateInPlace(results, profile.value);
    PersonalizedAboveOrder();
    SortInPlace(results, PersonalizedAbove);
  }

  /** The first loop of `personalize_results`: each result annotated in place. */
  method AnnotateInPlace(results: array<Scored>, prefs: UP.Preferences)
    modifies results
    ensures results[..] == AnnotateAll(old(results[..]), prefs)
  {
    ghost var annotated := AnnotateAll(results[..], prefs);
    var i := 0;
    while i < results.Length
      invariant 0 <= i <= results.Length
      invariant forall k :: 0 <= k < i ==> results[k] == annotated[k]
      invariant forall k :: i <= k < results.Length ==> annotated[k] == Annotate(results[k], prefs)
    {
      var q := Annotate(results[i], prefs);
      results[i] := q;
      i := i + 1;
    }
    assert results[..] == annotated;
  }

  // ---------------------------------------------------------------------------
  // Per-user alpha
  // ---------------------------------------------------------------------------

  /** Where the diversity score `min(2 * std, 1)` of the genre scores falls against 0.7 and 0.3. */
  datatype Spread = Diverse | Focused | Moderate

  function SumSquares(xs: seq<real>, mean: real): (s: real)
    ensures s >= 0.0
  {
    if xs == [] then 0.0
    else
      var dev := xs[|xs| - 1] - mean;
      SquareNonNegative(dev);
      SumSquares(xs[..|xs| - 1], mean) + dev * dev
  }

  lemma SquareNonNegative(x: real)
    ensures x * x >= 0.0
  {
    if x < 0.0 {
      assert x * x == (-x) * (-x);
    }
  }

  /** The population variance of the scores. */
  function Variance(xs: seq<real>): (v: real)
    requires xs != []
    ensures v >= 0.0
  {
    var n := |xs| as real;
    SumSquares(xs, UP.Sum(xs) / n) / n
  }

  /** `list(prefs.values())` */
  function ScoreList(d: OD.Dict): (xs: seq<real>)
    requires OD.Valid(d)
    ensures |xs| == |d.keys|
  {
    seq(|d.keys|, i requires 0 <= i < |d.keys| => d.vals[d.keys[i]])
  }

  /**
   * `_calculate_preference_diversity` compared against the thresholds: the diversity exceeds 0.7
   * exactly when four times the variance exceeds 0.49, and is below 0.3 exactly when four times
   * the variance is below 0.09; fewer than two genres is diversity 0, an empty map 0.5.
   */
  function GenreSpread(genres: OD.Dict): Spread
    requires OD.Valid(genres)
  {
    var xs := ScoreList(genres);
    if xs == [] then Moderate
    else if |xs| < 2 then Focused
    else if 4.0 * Variance(xs) > 0.49 then Diverse
    else if 4.0 * Variance(xs) < 0.09 then Focused
    else Moderate
  }

  /** `calculate_user_specific_alpha` */
  function UserSpecificAlpha(profile: Option<UP.Preferences>, baseAlpha: real): (alpha: real)
    requires profile.Some? ==> OD.Valid(profile.value.genres)
    ensures profile.None? || profile.value.genres.vals == map[] ==> alpha == baseAlpha
    ensures 0.3 <= baseAlpha <= 0.95 ==> 0.3 <= alpha <= 0.95
    ensures 0.0 <= baseAlpha <= 1.0 ==> 0.0 <= alpha <= 1.0
  {
    if profile.None? || profile.value.genres.vals == map[] then baseAlpha
    else
      match GenreSpread(profile.value.genres)
      case Diverse => Min(baseAlpha + 0.15, 0.95)
      case Focused => Max(baseAlpha - 0.1, 0.3)
      case Moderate => baseAlpha
  }

  function Min(a: real, b: real): real { if a <= b then a else b }
  function Max(a: real, b: real): real { if a >= b then a else b }

  /**
   * Diverse tastes move alpha up (towards semantic search) but not past 0.95; focused tastes
   * move it down (towards lexical search) but not below 0.3; moderate ones leave it.
   */
  lemma AlphaDirection(prefs: UP.Preferences, baseAlpha: real)
    requires OD.Valid(prefs.genres) && prefs.genres.vals != map[]
    ensures var alpha := UserSpecificAlpha(Some(prefs), baseAlpha);
      && (GenreSpread(prefs.genres) == Diverse && baseAlpha <= 0.95 ==> baseAlpha <= alpha <= 0.95)
      && (GenreSpread(prefs.genres) == Focused && baseAlpha >= 0.3 ==> 0.3 <= alpha <= baseAlpha)
      && (GenreSpread(prefs.genres) == Moderate ==> alpha == baseAlpha)
  {
  }

  /** A single genre, or several genres all scored alike, is a focused taste. */
  lemma EvenScoresAreFocused(genres: OD.Dict, v: real)
    requires OD.Valid(genres) && genres.keys != []
    requires forall k :: k in genres.vals ==> genres.vals[k] == v
    ensures GenreSpread(genres) == Focused
  {
    var xs := ScoreList(genres);
    if |xs| >= 2 {
      assert forall i :: 0 <= i < |xs| ==> xs[i] == v;
      SumConstant(xs, v);
      var n := |xs| as real;
      assert UP.Sum(xs) / n == v;
      SumSquaresAtValue(xs, v);
    }
  }

  lemma {:induction false} SumConstant(xs: seq<real>, v: real)
    requires forall i :: 0 <= i < |xs| ==> xs[i] == v
    ensures UP.Sum(xs) == v * (|xs| as real)
  {
    if xs != [] {
      SumConstant(xs[..|xs| - 1], v);
    }
  }

  lemma {:induction false} SumSquaresAtValue(xs: seq<real>, v: real)
    requires forall i :: 0 <= i < |xs| ==> xs[i] == v
    ensures SumSquares(xs, v) == 0.0
  {
    if xs != [] {
      SumSquaresAtValue(xs[..|xs| - 1], v);
    }
  }

  // ---------------------------------------------------------------------------
  // The reason string
  // ---------------------------------------------------------------------------

  const GenreReason := "matches your genre preferences"
  const ActorReason := "features your favorite actors"
  const DirectorReason := "by a director you like"
  const ThemeReason := "matches your interests"

  /** The reasons whose boost passes its threshold (0.1 for genre, 0.05 for the others), in a fixed order. */
  function Reasons(d: BoostDetails): (rs: seq<string>)
    ensures GenreReason in rs <==> d.genre > 0.1
    ensures ActorReason in rs <==> d.actor > 0.05
    ensures DirectorReason in rs <==> d.director > 0.05
    ensures ThemeReason in rs <==> d.theme > 0.05
    ensures |rs| <= 4
  {
    (if d.genre > 0.1 then [GenreReason] else [])
    + (if d.actor > 0.05 then [ActorReason] else [])
    + (if d.director > 0.05 then [DirectorReason] else [])
    + (if d.theme > 0.05 then [ThemeReason] else [])
  }

  /** One reason as it is; several as "a, b and c". */
  function ReasonPhrase(rs: seq<string>): string
    requires rs != []
  {
    if |rs| == 1 then rs[0] else Join(rs[..|rs| - 1], ", ") + " and " + rs[|rs| - 1]
  }

  /** `get_personalization_summary` */
  function Summary(r: Scored): string
  {
    if r.boost.None? || r.boost.value.multiplier <= 1.05 then "Standard recommendation"
    else
      var rs := Reasons(r.boost.value.details);
      if rs == [] then "Recommended for you"
      else "Recommended because it " + ReasonPhrase(rs)
  }

  /**
   * The three kinds of summary and exactly when each is given: "Standard recommendation" without
   * a boost or with a multiplier of at most 1.05, "Recommended for you" for a larger multiplier
   * that no single boost explains, and the reasons otherwise.
   */
  lemma SummaryCases(r: Scored)
    ensures Summary(r) == "Standard recommendation" <==> r.boost.None? || r.boost.value.multiplier <= 1.05
    ensures Summary(r) == "Recommended for you" <==>
      r.boost.Some? && r.boost.value.multiplier > 1.05 && Reasons(r.boost.value.details) == []
    ensures r.boost.Some? && r.boost.value.multiplier > 1.05 && Reasons(r.boost.value.details) != [] ==>
      Summary(r) == "Recommended because it " + ReasonPhrase(Reasons(r.boost.value.details))
  {
    var s := Summary(r);
    if r.boost.Some? && r.boost.value.multiplier > 1.05 {
      var rs := Reasons(r.boost.value.details);
      if rs != [] {
        var prefix := "Recommended because it ";
        assert s == prefix + ReasonPhrase(rs);
        assert s[0] == 'R' && s[12] == 'b';
      } else {
        assert s[0] == 'R';
      }
    }
  }

  /**
   * The phrase for each number of reasons `Reasons` can give: the reason alone, "a and b",
   * "a, b and c", "a, b, c and d".
   */
  lemma ReasonPhraseCases(rs: seq<string>)
    requires rs != []
    ensures |rs| == 1 ==> ReasonPhrase(rs) == rs[0]
    ensures |rs| == 2 ==> ReasonPhrase(rs) == rs[0] + " and " + rs[1]
    ensures |rs| == 3 ==> ReasonPhrase(rs) == rs[0] + ", " + rs[1] + " and " + rs[2]
    ensures |rs| == 4 ==> ReasonPhrase(rs) == rs[0] + ", " + rs[1] + ", " + rs[2] + " and " + rs[3]
  {
    var init := rs[..|rs| - 1];
    if |rs| == 2 {
      assert Join(init, ", ") == rs[0];
    } else if |rs| == 3 {
      assert init[1..] == [rs[1]];
      assert Join(init, ", ") == rs[0] + ", " + rs[1];
    } else if |rs| == 4 {
      assert init[1..][1..] == [rs[2]];
      assert Join(init[1..], ", ") == rs[1] + ", " + rs[2];
      assert Join(init, ", ") == rs[0] + ", " + (rs[1] + ", " + rs[2]);
    }
  }

  /** Any two reasons are joined by "and" behind "Recommended because it ". */
  lemma TwoReasonSummary(r: Scored)
    requires r.boost.Some? && r.boost.value.multiplier > 1.05
    requires |Reasons(r.boost.value.details)| == 2
    ensures var rs := Reasons(r.boost.value.details);
      Summary(r) == "Recommended because it " + (rs[0] + " and " + rs[1])
  {
    var rs := Reasons(r.boost.value.details);
    SummaryCases(r);
    ReasonPhraseCases(rs);
  }
}
