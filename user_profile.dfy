/**
 * The preference profile store: one profile per user, learnt from the user's interactions with
 * dramas. An update is one load-modify-save pass over the profile: counters, an interaction
 * weight, an exponential moving average over five label -> score maps, a running rating mean,
 * a capped log of recent interactions, viewing-pattern heuristics, and finally clamping every
 * score to [0, 1] and keeping the 50 best labels of each map.
 *
 * The profile files on disk are the `profiles` map of a ProfileStore; clock readings are the
 * opaque `now` argument of each operation.
 */
module UserProfile {
  import opened Wrappers
  import opened PyStr
  import opened Sorting
  import OD = OrderedDict
  import opened Records

  const MaxRecent := 50
  const MaxYears := 5
  const MaxLabels := 50
  const BingeThreshold := 20

  // ---------------------------------------------------------------------------
  // The profile record
  // ---------------------------------------------------------------------------

  datatype PrefKind = Genres | Actors | Directors | Themes | Publishers

  /** `profile["preferences"]`: a label -> score map per kind of label. */
  datatype Preferences = Preferences(
    genres: OD.Dict, actors: OD.Dict, directors: OD.Dict, themes: OD.Dict, publishers: OD.Dict)
  {
    function Of(kind: PrefKind): OD.Dict
    {
      match kind
      case Genres => genres
      case Actors => actors
      case Directors => directors
      case Themes => themes
      case Publishers => publishers
    }
  }

  /**
   * `profile["statistics"]`. `ratingStyle` is absent until the first rating: the rating update
   * writes the style here, next to the average it is computed from.
   */
  datatype Statistics = Statistics(
    totalInteractions: nat, totalClicks: nat, totalWatchlistAdds: nat, totalWatched: nat,
    avgRating: real, totalRatings: nat, ratingStyle: Option<string>)

  /** `profile["viewing_patterns"]`; its `rating_style` is set at creation and never written again. */
  datatype ViewingPatterns = ViewingPatterns(
    preferredEpisodeCount: Option<int>, preferredYears: seq<int>, bingeWatcher: bool, ratingStyle: string)

  datatype Interaction = Interaction(dramaTitle: string, interactionType: string, timestamp: string)

  datatype Profile = Profile(
    userId: string, createdAt: string, lastUpdated: string,
    preferences: Preferences, statistics: Statistics, viewingPatterns: ViewingPatterns,
    recentInteractions: seq<Interaction>)

  /** Every score lies in [0, 1]. */
  ghost predicate ScoresInUnit(d: OD.Dict)
  {
    forall k :: k in d.vals ==> 0.0 <= d.vals[k] <= 1.0
  }

  /** A label map as normalisation leaves it. */
  ghost predicate MapValid(d: OD.Dict)
  {
    OD.Valid(d) && ScoresInUnit(d) && |d.keys| <= MaxLabels
  }

  ghost predicate DictsValid(ps: Preferences)
  {
    OD.Valid(ps.genres) && OD.Valid(ps.actors) && OD.Valid(ps.directors)
    && OD.Valid(ps.themes) && OD.Valid(ps.publishers)
  }

  ghost predicate PrefsValid(ps: Preferences)
  {
    MapValid(ps.genres) && MapValid(ps.actors) && MapValid(ps.directors)
    && MapValid(ps.themes) && MapValid(ps.publishers)
  }

  lemma PrefsValidOf(ps: Preferences, kind: PrefKind)
    requires PrefsValid(ps)
    ensures MapValid(ps.Of(kind))
  {
  }

  /** The per-type counters never exceed the interaction count, nor does the rating count. */
  ghost predicate StatsValid(s: Statistics)
  {
    s.totalClicks + s.totalWatchlistAdds + s.totalWatched <= s.totalInteractions
    && s.totalRatings <= s.totalInteractions
  }

  ghost predicate PatternsValid(v: ViewingPatterns)
  {
    |v.preferredYears| <= MaxYears && Distinct(v.preferredYears)
  }

  /** What every stored profile satisfies. */
  ghost predicate ProfileValid(p: Profile)
  {
    PrefsValid(p.preferences) && StatsValid(p.statistics) && PatternsValid(p.viewingPatterns)
    && |p.recentInteractions| <= MaxRecent
  }

  /** `_create_new_profile` */
  function NewProfile(userId: string, now: string): (p: Profile)
    ensures ProfileValid(p)
    ensures p.userId == userId && p.createdAt == now && p.lastUpdated == now
    ensures forall kind :: p.preferences.Of(kind).keys == [] && p.preferences.Of(kind).vals == map[]
    ensures p.statistics.totalInteractions == 0 && p.statistics.totalRatings == 0
    ensures p.statistics.avgRating == 0.0 && p.viewingPatterns.ratingStyle == "neutral"
    ensures p.recentInteractions == []
  {
    var e := OD.Empty();
    Profile(userId, now, now,
      Preferences(e, e, e, e, e),
      Statistics(0, 0, 0, 0, 0.0, 0, None),
      ViewingPatterns(None, [], false, "neutral"),
      [])
  }

  // ---------------------------------------------------------------------------
  // Counters and the interaction weight
  // ---------------------------------------------------------------------------

  /** The interaction types that have a counter of their own. */
  predicate Counted(kind: string)
  {
    kind == "click" || kind == "watchlist_add" || kind == "watched"
  }

  /** The counter part of an update. */
  function CountInteraction(s: Statistics, kind: string): (r: Statistics)
    ensures StatsValid(s) ==> StatsValid(r)
  {
    var s1 := s.(totalInteractions := s.totalInteractions + 1);
    if kind == "click" then s1.(totalClicks := s.totalClicks + 1)
    else if kind == "watchlist_add" then s1.(totalWatchlistAdds := s.totalWatchlistAdds + 1)
    else if kind == "watched" then s1.(totalWatched := s.totalWatched + 1)
    else s1
  }

  /**
   * The interaction count goes up by one; of the three typed counters, exactly the one named by
   * the interaction type goes up by one (none for any other type); nothing else changes.
   */
  lemma CountInteractionExactlyOne(s: Statistics, kind: string)
    ensures var r := CountInteraction(s, kind);
      && r.totalInteractions == s.totalInteractions + 1
      && (r.totalClicks == s.totalClicks + 1 <==> kind == "click")
      && (r.totalWatchlistAdds == s.totalWatchlistAdds + 1 <==> kind == "watchlist_add")
      && (r.totalWatched == s.totalWatched + 1 <==> kind == "watched")
      && r.totalClicks + r.totalWatchlistAdds + r.totalWatched
         == s.totalClicks + s.totalWatchlistAdds + s.totalWatched + (if Counted(kind) then 1 else 0)
      && r.avgRating == s.avgRating && r.totalRatings == s.totalRatings && r.ratingStyle == s.ratingStyle
  {
  }

  /** The base weight of an interaction type. */
  function BaseWeight(kind: string): (w: real)
    ensures 0.0 < w <= 1.0
    ensures !Counted(kind) ==> w == 0.5
  {
    if kind == "click" then 0.3
    else if kind == "watchlist_add" then 0.6
    else if kind == "watched" then 1.0
    else 0.5
  }

  /** The weight of an interaction, scaled by `rating / 5` when a rating comes with it. */
  function Weight(kind: string, rating: Option<real>): (w: real)
    ensures rating.None? ==> w == BaseWeight(kind)
    ensures rating.Some? && 0.0 <= rating.value <= 5.0 ==> 0.0 <= w <= BaseWeight(kind)
    ensures rating == Some(5.0) ==> w == BaseWeight(kind)
  {
    if rating.Some? then BaseWeight(kind) * (rating.value / 5.0) else BaseWeight(kind)
  }

  // ---------------------------------------------------------------------------
  // Ratings
  // ---------------------------------------------------------------------------

  /** The style of a rater with average `avg`. */
  function RatingStyle(avg: real): (style: string)
    ensures style == "generous" <==> avg >= 4.5
    ensures style == "critical" <==> avg <= 3.5
    ensures style == "neutral" <==> 3.5 < avg < 4.5
  {
    if avg >= 4.5 then "generous" else if avg <= 3.5 then "critical" else "neutral"
  }

  /** `_update_rating_stats`: the running mean takes one more rating. */
  function RecordRating(s: Statistics, rating: real): (r: Statistics)
    ensures r.totalRatings == s.totalRatings + 1
    ensures r.avgRating * (r.totalRatings as real) == s.avgRating * (s.totalRatings as real) + rating
    ensures r.ratingStyle == Some(RatingStyle(r.avgRating))
    ensures r.totalInteractions == s.totalInteractions && r.totalClicks == s.totalClicks
    ensures r.totalWatchlistAdds == s.totalWatchlistAdds && r.totalWatched == s.totalWatched
  {
    var n := s.totalRatings;
    var avg := (s.avgRating * (n as real) + rating) / ((n + 1) as real);
    s.(avgRating := avg, totalRatings := n + 1, ratingStyle := Some(RatingStyle(avg)))
  }

  function Sum(xs: seq<real>): real
  {
    if xs == [] then 0.0 else Sum(xs[..|xs| - 1]) + xs[|xs| - 1]
  }

  /** The statistics after a series of ratings, oldest first. */
  function RecordRatings(s: Statistics, rs: seq<real>): Statistics
  {
    if rs == [] then s else RecordRating(RecordRatings(s, rs[..|rs| - 1]), rs[|rs| - 1])
  }

  /** The sum of the ratings a running mean stands for: the mean times the number of ratings. */
  function RatingTotal(s: Statistics): real
  {
    s.avgRating * (s.totalRatings as real)
  }

  lemma RecordRatingTotal(s: Statistics, rating: real)
    ensures RatingTotal(RecordRating(s, rating)) == RatingTotal(s) + rating
  {
  }

  /**
   * After any series of ratings the average is the mean of all ratings given so far: average times
   * count is the earlier total plus the sum of the new ratings.
   */
  lemma {:induction false} AverageIsMean(s: Statistics, rs: seq<real>)
    ensures RecordRatings(s, rs).totalRatings == s.totalRatings + |rs|
    ensures RatingTotal(RecordRatings(s, rs)) == RatingTotal(s) + Sum(rs)
  {
    if rs != [] {
      var init, last := rs[..|rs| - 1], rs[|rs| - 1];
      AverageIsMean(s, init);
      RecordRatingTotal(RecordRatings(s, init), last);
    }
  }

  /** Ratings within [lo, hi] keep the average within [lo, hi]. */
  lemma AverageBounded(s: Statistics, rating: real, lo: real, hi: real)
    requires s.totalRatings == 0 || lo <= s.avgRating <= hi
    requires lo <= rating <= hi
    ensures lo <= RecordRating(s, rating).avgRating <= hi
  {
    var n := s.totalRatings as real;
    var avg := RecordRating(s, rating).avgRating;
    assert avg * (n + 1.0) == s.avgRating * n + rating;
    if s.totalRatings == 0 {
      assert avg == rating;
    } else {
      var prev := s.avgRating;
      ScalePositive(lo, prev, n);
      ScalePositive(prev, hi, n);
      assert lo * (n + 1.0) == lo * n + lo;
      assert hi * (n + 1.0) == hi * n + hi;
      assert n + 1.0 > 0.0;
      assert lo * n + lo <= prev * n + rating;
      assert lo * (n + 1.0) <= avg * (n + 1.0);
      CancelPositive(lo, avg, n + 1.0);
      CancelPositive(avg, hi, n + 1.0);
    }
  }

  /** Scaling by a non-negative factor keeps an inequality. */
  lemma ScalePositive(a: real, b: real, c: real)
    requires a <= b && c >= 0.0
    ensures a * c <= b * c
  {
    assert (b - a) * c >= 0.0;
  }

  /** A positive factor can be cancelled from both sides of an inequality. */
  lemma CancelPositive(a: real, b: real, c: real)
    requires c > 0.0 && a * c <= b * c
    ensures a <= b
  {
  }

  // ---------------------------------------------------------------------------
  // Label maps: the exponential moving average
  // ---------------------------------------------------------------------------

  /** One moving-average step towards `weight`, capped at 1. */
  function EmaStep(current: real, weight: real): real
  {
    var s := current * 0.8 + weight * 0.2;
    if s <= 1.0 then s else 1.0
  }

  /** For scores and weights in [0, 1] the new score lies between the old score and the weight. */
  lemma EmaStepBetween(current: real, weight: real)
    requires 0.0 <= current <= 1.0 && 0.0 <= weight <= 1.0
    ensures 0.0 <= EmaStep(current, weight) <= 1.0
    ensures current <= weight ==> current <= EmaStep(current, weight) <= weight
    ensures weight <= current ==> weight <= EmaStep(current, weight) <= current
    ensures EmaStep(current, weight) - weight == 0.8 * (current - weight)
  {
  }

  /** The update of one label: a label never seen before starts from 0.5; the empty label is skipped. */
  function Bump(d: OD.Dict, name: string, weight: real): (r: OD.Dict)
    requires OD.Valid(d)
    ensures OD.Valid(r)
  {
    if name == "" then d else OD.Set(d, name, EmaStep(OD.Get(d, name, 0.5), weight))
  }

  /** The update of every label of a drama, in order; a repeated label is updated once per occurrence. */
  function BumpAll(d: OD.Dict, labels: seq<string>, weight: real): (r: OD.Dict)
    requires OD.Valid(d)
    ensures OD.Valid(r)
  {
    if labels == [] then d else Bump(BumpAll(d, labels[..|labels| - 1], weight), labels[|labels| - 1], weight)
  }

  /**
   * Labels the drama does not carry keep their presence and score; every non-empty label it
   * carries ends up in the map; labels already present keep their place.
   */
  lemma {:induction false} BumpAllFrame(d: OD.Dict, labels: seq<string>, weight: real)
    requires OD.Valid(d)
    ensures var r := BumpAll(d, labels, weight);
      && (forall k :: k !in labels ==> (k in r.vals <==> k in d.vals))
      && (forall k :: k !in labels && k in d.vals ==> r.vals[k] == d.vals[k])
      && (forall k :: k in labels && k != "" ==> k in r.vals)
      && |d.keys| <= |r.keys| && r.keys[..|d.keys|] == d.keys
  {
    if labels != [] {
      var init := labels[..|labels| - 1];
      BumpAllFrame(d, init, weight);
      assert forall k :: k in init ==> k in labels;
      assert labels == init + [labels[|labels| - 1]];
    }
  }

  /** The loop of an `_update_*_preferences` helper. */
  method ApplyLabels(d: OD.Dict, labels: seq<string>, weight: real) returns (r: OD.Dict)
    requires OD.Valid(d)
    ensures r == BumpAll(d, labels, weight)
  {
    r := d;
    var i := 0;
    while i < |labels|
      invariant 0 <= i <= |labels|
      invariant r == BumpAll(d, labels[..i], weight)
    {
      var name := labels[i];
      if name != "" {
        var current := OD.Get(r, name, 0.5);
        var s := current * 0.8 + weight * 0.2;
        r := OD.Set(r, name, if s <= 1.0 then s else 1.0);
      }
      assert labels[..i + 1][..i] == labels[..i];
      i := i + 1;
    }
    assert labels[..i] == labels;
  }

  // ---------------------------------------------------------------------------
  // Which labels a drama carries
  // ---------------------------------------------------------------------------

  /**
   * `[g.strip() for g in genres.split(",")]`, or nothing for an empty genre text: the labels are the
   * stripped comma-free fields that, joined by commas, give the genre text back.
   */
  function GenreLabels(drama: Record): (ls: seq<string>)
    ensures Get2(drama, "Genre", "genres", "") == [] ==> ls == []
    ensures Get2(drama, "Genre", "genres", "") != [] ==> exists fields ::
      && Join(fields, ",") == Get2(drama, "Genre", "genres", "")
      && (forall i :: 0 <= i < |fields| ==> ',' !in fields[i])
      && ls == StripAll(fields)
    ensures forall i :: 0 <= i < |ls| ==> Trimmed(ls[i])
  {
    var text := Get2(drama, "Genre", "genres", "");
    if text == [] then [] else
      var fields := Split(text, ',');
      assert Join(fields, ",") == text;
      StripAll(fields)
  }

  /**
   * `[a.strip() for a in cast.split(",")[:5]]`: the first five of the comma-free fields that,
   * joined by commas, give the cast text back, stripped.
   */
  function ActorLabels(drama: Record): (ls: seq<string>)
    ensures |ls| <= 5
    ensures Get2(drama, "Cast", "cast", "") == [] ==> ls == []
    ensures Get2(drama, "Cast", "cast", "") != [] ==> exists fields ::
      && Join(fields, ",") == Get2(drama, "Cast", "cast", "")
      && (forall i :: 0 <= i < |fields| ==> ',' !in fields[i])
      && ls == StripAll(fields[..Min(5, |fields|)])
    ensures forall i :: 0 <= i < |ls| ==> Trimmed(ls[i])
  {
    var text := Get2(drama, "Cast", "cast", "");
    if text == [] then [] else
      var fields := Split(text, ',');
      assert Join(fields, ",") == text;
      StripAll(Take(fields, 5))
  }

  /**
   * A director or publisher field as a single label, not stripped: the field's text when it is
   * non-empty, and no label otherwise.
   */
  function SingleLabel(drama: Record, key: string, alias: string): (ls: seq<string>)
    ensures |ls| <= 1
    ensures forall l :: l in ls ==> l == Get2(drama, key, alias, "") && l != ""
    ensures Get2(drama, key, alias, "") != "" ==> Get2(drama, key, alias, "") in ls
  {
    var text := Get2(drama, key, alias, "");
    if text == [] then [] else [text]
  }

  /** The theme dictionary the description is matched against, in its declaration order. */
  const ThemeTable: seq<(string, seq<string>)> := [
    ("emotional", ["emotional", "tearjerker", "touching", "heartwarming"]),
    ("funny", ["funny", "comedy", "humorous", "hilarious"]),
    ("action", ["action", "fighting", "martial arts", "chase"]),
    ("romantic", ["romantic", "love", "romance", "relationship"]),
    ("suspense", ["suspense", "mystery", "thriller", "twist"]),
    ("realistic", ["realistic", "slice of life", "everyday", "real"]),
    ("fantasy", ["fantasy", "supernatural", "magical", "mystical"])
  ]

  /** Some word of `words` occurs in `text`. */
  predicate AnyIn(text: string, words: seq<string>)
  {
    exists w :: w in words && Contains(text, w)
  }

  /** The names of the table entries, from index `from` on, with a word in `descLower`. */
  function ThemesFrom(descLower: string, from: nat): (ts: seq<string>)
    requires from <= |ThemeTable|
    decreases |ThemeTable| - from
  {
    if from == |ThemeTable| then []
    else
      var rest := ThemesFrom(descLower, from + 1);
      if AnyIn(descLower, ThemeTable[from].1) then [ThemeTable[from].0] + rest else rest
  }

  /** The themes of a description: every theme that has a word in the lower-cased description. */
  function DescriptionThemes(description: string): (ts: seq<string>)
  {
    if description == [] then [] else ThemesFrom(Lower(description), 0)
  }

  lemma {:induction false} ThemesFromSpec(descLower: string, from: nat)
    requires from <= |ThemeTable|
    ensures forall i :: from <= i < |ThemeTable| ==>
      (ThemeTable[i].0 in ThemesFrom(descLower, from) <==> AnyIn(descLower, ThemeTable[i].1))
    ensures forall t :: t in ThemesFrom(descLower, from) ==>
      exists i :: from <= i < |ThemeTable| && ThemeTable[i].0 == t
    decreases |ThemeTable| - from
  {
    if from < |ThemeTable| {
      ThemesFromSpec(descLower, from + 1);
      ThemeNamesDistinct();
    }
  }

  lemma ThemeNamesDistinct()
    ensures forall i, j :: 0 <= i < j < |ThemeTable| ==> ThemeTable[i].0 != ThemeTable[j].0
  {
    var heads := ["em", "fu", "ac", "ro", "su", "re", "fa"];
    forall i | 0 <= i < |ThemeTable| ensures |ThemeTable[i].0| >= 2 && ThemeTable[i].0[..2] == heads[i] {
    }
  }

  /**
   * A theme is found in a non-empty description exactly when one of its words occurs in the
   * lower-cased description; nothing outside the table is ever found.
   */
  lemma DescriptionThemesSpec(description: string)
    ensures forall i :: 0 <= i < |ThemeTable| ==>
      ((ThemeTable[i].0 in DescriptionThemes(description)) <==>
       (description != [] && AnyIn(Lower(description), ThemeTable[i].1)))
    ensures forall t :: t in DescriptionThemes(description) ==> exists i :: 0 <= i < |ThemeTable| && ThemeTable[i].0 == t
  {
    if description != [] {
      ThemesFromSpec(Lower(description), 0);
    }
  }

  /**
   * `[k.strip().lower() for k in keywords.split(",")]`, or nothing for an empty keyword text: one
   * lower-case label per comma-free field that, joined by commas, gives the keyword text back.
   */
  function KeywordLabels(drama: Record): (ls: seq<string>)
    ensures Get(drama, "keywords", "") == [] ==> ls == []
    ensures Get(drama, "keywords", "") != [] ==> exists fields ::
      && Join(fields, ",") == Get(drama, "keywords", "")
      && (forall i :: 0 <= i < |fields| ==> ',' !in fields[i])
      && ls == LowerAll(StripAll(fields))
    ensures forall i :: 0 <= i < |ls| ==> Lower(ls[i]) == ls[i]
  {
    var text := Get(drama, "keywords", "");
    if text == [] then [] else
      var fields := Split(text, ',');
      assert Join(fields, ",") == text;
      var ls := LowerAll(StripAll(fields));
      assert forall i :: 0 <= i < |ls| ==> Lower(ls[i]) == ls[i] by {
        forall i | 0 <= i < |ls| ensures Lower(ls[i]) == ls[i] {
          LowerLower(Strip(fields[i]));
        }
      }
      ls
  }

  /** The keyword labels, then the themes of the description. */
  function ThemeLabels(drama: Record): (ls: seq<string>)
    ensures |ls| == |KeywordLabels(drama)| + |DescriptionThemes(Get2(drama, "Description", "description", ""))|
    ensures ls[..|KeywordLabels(drama)|] == KeywordLabels(drama)
    ensures ls[|KeywordLabels(drama)|..] == DescriptionThemes(Get2(drama, "Description", "description", ""))
  {
    KeywordLabels(drama) + DescriptionThemes(Get2(drama, "Description", "description", ""))
  }

  /** Any description whose lower-cased text mentions "love" makes the drama romantic. */
  lemma LoveIsRomantic(description: string)
    ensures Contains(Lower(description), "love") ==> "romantic" in DescriptionThemes(description)
  {
    DescriptionThemesSpec(description);
    assert ThemeTable[3].0 == "romantic" && "love" in ThemeTable[3].1;
  }

  // ---------------------------------------------------------------------------
  // Recent interactions and viewing patterns
  // ---------------------------------------------------------------------------

  /** `insert(0, i)` then `[:50]`: newest first, the oldest entry falls off a full log. */
  function AddRecent(log: seq<Interaction>, i: Interaction): (r: seq<Interaction>)
    ensures |r| == Min(|log| + 1, MaxRecent)
    ensures r[0] == i
    ensures forall k :: 1 <= k < |r| ==> r[k] == log[k - 1]
  {
    Take([i] + log, MaxRecent)
  }

  /** `int(x)` on a float: truncation toward zero. */
  function Trunc(x: real): (n: int)
    ensures 0.0 <= x ==> n as real <= x < n as real + 1.0
    ensures x < 0.0 ==> n as real - 1.0 < x <= n as real
  {
    if x >= 0.0 then x.Floor else -((-x).Floor)
  }

  /** The preferred episode count: the first count seen, then a 70/30 blend truncated to an integer. */
  function BlendEpisodes(current: Option<int>, episodes: int): Option<int>
  {
    if current.None? || current.value == 0 then Some(episodes)
    else Some(Trunc(current.value as real * 0.7 + episodes as real * 0.3))
  }

  /** A blend of non-negative counts lies between the old preference and the new count. */
  lemma BlendBetween(current: int, episodes: int)
    requires current > 0 && episodes >= 0
    ensures var b := BlendEpisodes(Some(current), episodes).value;
      Min(current, episodes) <= b <= Max(current, episodes)
  {
    var x := current as real * 0.7 + episodes as real * 0.3;
    assert Min(current, episodes) as real <= x <= Max(current, episodes) as real;
  }

  /** A new year is appended, a known one is not; only the last five are kept. */
  function AddYear(years: seq<int>, year: int): (r: seq<int>)
    ensures |r| <= MaxYears
    ensures Distinct(years) ==> Distinct(r)
    ensures |years| <= MaxYears ==> year in r
    ensures year !in years ==> |r| > 0 && r[|r| - 1] == year
    ensures |r| == Min(MaxYears, if year in years then |years| else |years| + 1)
    ensures year in years ==> r == years[|years| - |r|..]
    ensures year !in years ==> r == years[|years| + 1 - |r|..] + [year]
  {
    var ys := if year in years then years else years + [year];
    assert year in ys && ys[|ys| - 1] in ys;
    assert Distinct(years) && year !in years ==> Distinct(ys);
    var r := TakeLast(ys, MaxYears);
    assert year !in years ==> r == years[|years| + 1 - |r|..] + [year] by {
      if year !in years {
        assert r == (years + [year])[|years| + 1 - |r|..];
      }
    }
    r
  }

  /** `int()` of a field that is present and non-empty. */
  function IntField(drama: Record, k1: string, k2: string): Option<int>
  {
    match Lookup2(drama, k1, k2)
    case None => None
    case Some(text) => if text == [] then None else ParseInt(text)
  }

  /** `_analyze_viewing_patterns`; `totalWatched` is the count after this interaction. */
  function AnalyzePatterns(v: ViewingPatterns, drama: Record, totalWatched: nat): (r: ViewingPatterns)
    ensures PatternsValid(v) ==> PatternsValid(r)
    ensures r.bingeWatcher <==> v.bingeWatcher || totalWatched >= BingeThreshold
    ensures r.ratingStyle == v.ratingStyle
    ensures IntField(drama, "year_aired", "Year").None? ==> r.preferredYears == v.preferredYears
    ensures IntField(drama, "episodes", "Episodes").None? ==> r.preferredEpisodeCount == v.preferredEpisodeCount
  {
    var episodes := IntField(drama, "episodes", "Episodes");
    var count := if episodes.Some? then BlendEpisodes(v.preferredEpisodeCount, episodes.value)
                 else v.preferredEpisodeCount;
    var year := IntField(drama, "year_aired", "Year");
    var years := if year.Some? then AddYear(v.preferredYears, year.value) else v.preferredYears;
    ViewingPatterns(count, years, v.bingeWatcher || totalWatched >= BingeThreshold, v.ratingStyle)
  }

  // ---------------------------------------------------------------------------
  // Normalisation and top labels
  // ---------------------------------------------------------------------------

  function Clamp(x: real): (c: real)
    ensures 0.0 <= c <= 1.0
    ensures 0.0 <= x <= 1.0 ==> c == x
  {
    if x < 0.0 then 0.0 else if x > 1.0 then 1.0 else x
  }

  /** Every score clamped to [0, 1], keys and their order untouched. */
  function ClampAll(d: OD.Dict): (r: OD.Dict)
    requires OD.Valid(d)
    ensures OD.Valid(r) && ScoresInUnit(r)
    ensures r.keys == d.keys
    ensures forall k :: k in d.vals ==> k in r.vals && r.vals[k] == Clamp(d.vals[k])
  {
    OD.Dict(d.keys, map k | k in d.vals :: Clamp(d.vals[k]))
  }

  /** The clamping loop of `_normalize_preferences`. */
  method ClampScores(d: OD.Dict) returns (r: OD.Dict)
    requires OD.Valid(d)
    ensures r == ClampAll(d)
  {
    r := d;
    var i := 0;
    while i < |d.keys|
      invariant 0 <= i <= |d.keys|
      invariant OD.Valid(r) && r.keys == d.keys
      invariant forall k :: k in r.vals <==> k in d.vals
      invariant forall k :: k in d.vals ==>
        r.vals[k] == if k in d.keys[..i] then Clamp(d.vals[k]) else d.vals[k]
    {
      var k := d.keys[i];
      assert k !in d.keys[..i];
      r := OD.Set(r, k, Clamp(r.vals[k]));
      assert d.keys[..i + 1] == d.keys[..i] + [k];
      i := i + 1;
    }
    assert d.keys[..i] == d.keys;
    assert r.vals == ClampAll(d).vals;
  }

  /** The goes-before relation of `sorted(items, key=score, reverse=True)`. */
  predicate ScoreAbove(a: (string, real), b: (string, real))
  {
    a.1 > b.1
  }

  lemma ScoreAboveOrder()
    ensures StrictWeakOrder(ScoreAbove)
  {
  }

  /** `sorted(d.items(), key=score, reverse=True)[:n]` */
  function TopItems(d: OD.Dict, n: int): (r: seq<(string, real)>)
    requires OD.Valid(d)
    ensures |r| == if n >= 0 then Min(n, |d.keys|) else Max(0, |d.keys| + n)
  {
    Take(SortBy(OD.Items(d), ScoreAbove), n)
  }

  /**
   * The top items are pairs of the map, best first, with distinct labels, and every label left
   * out scores no higher than any label taken.
   */
  lemma TopItemsSpec(d: OD.Dict, n: int)
    requires OD.Valid(d)
    ensures var r := TopItems(d, n);
      && (forall i :: 0 <= i < |r| ==> r[i].0 in d.vals && r[i].1 == d.vals[r[i].0])
      && (forall i, j :: 0 <= i < j < |r| ==> r[i].1 >= r[j].1)
      && Distinct(OD.KeysOf(r))
      && (forall i, k :: 0 <= i < |r| && k in d.vals && k !in OD.KeysOf(r) ==> d.vals[k] <= r[i].1)
  {
    var items := OD.Items(d);
    var s := SortBy(items, ScoreAbove);
    var r := TopItems(d, n);
    ScoreAboveOrder();
    SortBySorted(items, ScoreAbove);
    SortedPairsFromMap(d, s);
    assert r == s[..|r|];
    assert OD.KeysOf(r) == OD.KeysOf(s)[..|r|];
    LeftOutNoHigher(d, s, |r|);
  }

  /** In a sorted permutation of a map's items, a label outside the first `len` scores no higher than those. */
  lemma LeftOutNoHigher(d: OD.Dict, s: seq<(string, real)>, len: nat)
    requires OD.Valid(d)
    requires multiset(s) == multiset(OD.Items(d))
    requires Sorted(s, ScoreAbove)
    requires len <= |s|
    ensures forall i, k :: 0 <= i < len && k in d.vals && k !in OD.KeysOf(s)[..len] ==> d.vals[k] <= s[i].1
  {
    var items := OD.Items(d);
    forall i, k | 0 <= i < len && k in d.vals && k !in OD.KeysOf(s)[..len] ensures d.vals[k] <= s[i].1 {
      var j :| 0 <= j < |d.keys| && d.keys[j] == k;
      assert items[j] in multiset(s);
      var m :| 0 <= m < |s| && s[m] == items[j];
      assert OD.KeysOf(s)[m] == k;
      assert m >= len;
      assert !ScoreAbove(s[m], s[i]);
    }
  }

  /** A permutation of a map's items consists of the map's pairs, with distinct labels. */
  lemma SortedPairsFromMap(d: OD.Dict, s: seq<(string, real)>)
    requires OD.Valid(d)
    requires multiset(s) == multiset(OD.Items(d))
    ensures forall i :: 0 <= i < |s| ==> s[i].0 in d.vals && s[i].1 == d.vals[s[i].0]
    ensures Distinct(OD.KeysOf(s))
  {
    var items := OD.Items(d);
    forall i | 0 <= i < |s| ensures s[i].0 in d.vals && s[i].1 == d.vals[s[i].0] {
      assert s[i] in multiset(items);
    }
    forall i, j | 0 <= i < j < |items| ensures items[i] != items[j] {
      assert d.keys[i] != d.keys[j];
    }
    PermutationDistinct(items, s);
    forall i, j | 0 <= i < j < |s| ensures OD.KeysOf(s)[i] != OD.KeysOf(s)[j] {
      assert s[i] != s[j];
    }
  }

  /** The dictionary `_normalize_preferences` leaves: scores clamped, then the 50 best kept. */
  function Normalize(d: OD.Dict): (r: OD.Dict)
    requires OD.Valid(d)
    ensures MapValid(r)
    ensures |r.keys| == Min(|d.keys|, MaxLabels)
    ensures forall k :: k in r.vals ==> k in d.vals && r.vals[k] == Clamp(d.vals[k])
  {
    var c := ClampAll(d);
    if |c.keys| > MaxLabels then
      var top := TopItems(c, MaxLabels);
      TopItemsSpec(c, MaxLabels);
      OD.ItemsFromItems(top);
      FromTopItems(c, top, OD.FromItems(top));
      OD.FromItems(top)
    else c
  }

  /** A dictionary whose items are pairs taken from `c` holds exactly those keys, with `c`'s values. */
  lemma FromTopItems(c: OD.Dict, top: seq<(string, real)>, r: OD.Dict)
    requires OD.Valid(c) && OD.Valid(r)
    requires forall i :: 0 <= i < |top| ==> top[i].0 in c.vals && top[i].1 == c.vals[top[i].0]
    requires OD.Items(r) == top
    ensures |r.keys| == |top| && r.keys == OD.KeysOf(top)
    ensures forall k :: k in r.vals ==> k in c.vals && r.vals[k] == c.vals[k]
  {
    forall j | 0 <= j < |top| ensures OD.KeysOf(top)[j] == r.keys[j] {
      assert OD.Items(r)[j] == top[j];
    }
    forall k | k in r.vals ensures k in c.vals && r.vals[k] == c.vals[k] {
      var i :| 0 <= i < |r.keys| && r.keys[i] == k;
      assert OD.Items(r)[i] == top[i];
    }
  }

  /** Normalisation drops only labels scoring no higher than every label it keeps. */
  lemma NormalizeKeepsHighest(d: OD.Dict)
    requires OD.Valid(d)
    ensures var r := Normalize(d);
      forall k, k' :: k in r.vals && k' in d.vals && k' !in r.vals ==> Clamp(d.vals[k']) <= r.vals[k]
  {
    var c := ClampAll(d);
    var r := Normalize(d);
    if |c.keys| > MaxLabels {
      var top := TopItems(c, MaxLabels);
      TopItemsSpec(c, MaxLabels);
      OD.ItemsFromItems(top);
      FromTopItems(c, top, OD.FromItems(top));
      forall k, k' | k in r.vals && k' in d.vals && k' !in r.vals ensures Clamp(d.vals[k']) <= r.vals[k] {
        var i :| 0 <= i < |r.keys| && r.keys[i] == k;
        assert OD.KeysOf(top)[i] == top[i].0;
      }
    }
  }

  /** A map normalisation already left is left as it is. */
  lemma NormalizeIdempotent(d: OD.Dict)
    requires OD.Valid(d)
    ensures Normalize(Normalize(d)) == Normalize(d)
  {
    NormalizeValidUnchanged(Normalize(d));
  }

  /** A map whose scores lie in [0, 1] and which holds at most 50 labels is left as it is. */
  lemma NormalizeValidUnchanged(d: OD.Dict)
    requires MapValid(d)
    ensures Normalize(d) == d
  {
    assert ClampAll(d).vals == d.vals;
  }

  /** `_normalize_preferences` on one map: the clamping loop, then the pruning. */
  method NormalizeMap(d: OD.Dict) returns (r: OD.Dict)
    requires OD.Valid(d)
    ensures r == Normalize(d)
  {
    r := ClampScores(d);
    if |r.keys| > MaxLabels {
      r := OD.FromItems(TopItems(r, MaxLabels));
    }
  }

  /** The first item with the highest score, as `max(items, key=score)` picks it. */
  function ArgMaxFirst(xs: seq<(string, real)>): (i: nat)
    requires xs != []
    ensures i < |xs|
    ensures forall j :: 0 <= j < |xs| ==> xs[j].1 <= xs[i].1
    ensures forall j :: 0 <= j < i ==> xs[j].1 < xs[i].1
  {
    if |xs| == 1 then 0
    else
      var k := ArgMaxFirst(xs[..|xs| - 1]);
      if xs[|xs| - 1].1 > xs[k].1 then |xs| - 1 else k
  }

  /** `_determine_persona` on the genre map. */
  function Persona(genres: OD.Dict): (persona: string)
    requires OD.Valid(genres)
    ensures genres.keys == [] ==> persona == "New Viewer"
  {
    if genres.keys == [] then "New Viewer"
    else
      var items := OD.Items(genres);
      var top := items[ArgMaxFirst(items)];
      if top.1 >= 0.8 then top.0 + " Drama Enthusiast"
      else if top.1 >= 0.6 then top.0 + " Fan"
      else "Diverse Viewer"
  }

  /**
   * The genre at position `i` of the insertion order is the one `max()` returns: no genre scores
   * higher, and every genre inserted before it scores strictly lower.
   */
  ghost predicate TopGenreAt(genres: OD.Dict, i: int)
    requires OD.Valid(genres)
  {
    && 0 <= i < |genres.keys|
    && (forall k :: k in genres.vals ==> genres.vals[k] <= genres.vals[genres.keys[i]])
    && (forall j :: 0 <= j < i ==> genres.vals[genres.keys[j]] < genres.vals[genres.keys[i]])
  }

  /**
   * A non-empty genre map has a top genre; with `g` its name and `s` its score, the persona is
   * "<g> Drama Enthusiast" when s >= 0.8, "<g> Fan" when 0.6 <= s < 0.8, and "Diverse Viewer"
   * otherwise, which happens exactly when every genre scores below 0.6.
   */
  lemma PersonaSpec(genres: OD.Dict)
    requires OD.Valid(genres)
    ensures genres.keys != [] ==> exists i :: TopGenreAt(genres, i)
    ensures forall i :: TopGenreAt(genres, i) ==>
      var g := genres.keys[i];
      && (genres.vals[g] >= 0.8 ==> Persona(genres) == g + " Drama Enthusiast")
      && (0.6 <= genres.vals[g] < 0.8 ==> Persona(genres) == g + " Fan")
      && (genres.vals[g] < 0.6 ==> Persona(genres) == "Diverse Viewer")
    ensures Persona(genres) == "Diverse Viewer" <==>
      genres.keys != [] && forall k :: k in genres.vals ==> genres.vals[k] < 0.6
  {
    if genres.keys != [] {
      var items := OD.Items(genres);
      var a := ArgMaxFirst(items);
      var g := items[a].0;
      assert g == genres.keys[a];
      forall k | k in genres.vals ensures genres.vals[k] <= genres.vals[g] {
        var j :| 0 <= j < |genres.keys| && genres.keys[j] == k;
        assert items[j].1 <= items[a].1;
      }
      assert TopGenreAt(genres, a) by {
        forall j | 0 <= j < a ensures genres.vals[genres.keys[j]] < genres.vals[g] {
          assert items[j].1 < items[a].1;
        }
      }
      forall i | TopGenreAt(genres, i) ensures i == a {
      }
      var p := Persona(genres);
      if items[a].1 >= 0.8 {
        assert p[|p| - 1] == 't';
      } else if items[a].1 >= 0.6 {
        assert p[|p| - 1] == 'n';
      }
    }
  }

  // ---------------------------------------------------------------------------
  // One update
  // ---------------------------------------------------------------------------

  /** The statistics part of an update: the counters, then the rating when one is given. */
  function UpdateStatistics(s: Statistics, kind: string, rating: Option<real>): (r: Statistics)
    ensures StatsValid(s) ==> StatsValid(r)
    ensures r.totalInteractions == s.totalInteractions + 1
  {
    var counted := CountInteraction(s, kind);
    if rating.Some? then RecordRating(counted, rating.value) else counted
  }

  /** The five `_update_*_preferences` helpers, each over the labels the drama carries. */
  function BumpPreferences(ps: Preferences, drama: Record, weight: real): (r: Preferences)
    requires DictsValid(ps)
    ensures DictsValid(r)
  {
    Preferences(
      BumpAll(ps.genres, GenreLabels(drama), weight),
      BumpAll(ps.actors, ActorLabels(drama), weight),
      BumpAll(ps.directors, SingleLabel(drama, "Director", "director"), weight),
      BumpAll(ps.themes, ThemeLabels(drama), weight),
      BumpAll(ps.publishers, SingleLabel(drama, "publisher", "Publisher"), weight))
  }

  /** The five `_update_*_preferences` calls of one interaction. */
  method UpdatePreferences(ps: Preferences, drama: Record, weight: real) returns (r: Preferences)
    requires DictsValid(ps)
    ensures r == BumpPreferences(ps, drama, weight)
  {
    var genres := ApplyLabels(ps.genres, GenreLabels(drama), weight);
    var actors := ApplyLabels(ps.actors, ActorLabels(drama), weight);
    var directors := ApplyLabels(ps.directors, SingleLabel(drama, "Director", "director"), weight);
    var themes := ApplyLabels(ps.themes, ThemeLabels(drama), weight);
    var publishers := ApplyLabels(ps.publishers, SingleLabel(drama, "publisher", "Publisher"), weight);
    r := Preferences(genres, actors, directors, themes, publishers);
  }

  /** `_normalize_preferences`: each of the five maps normalised in turn. */
  method NormalizeAll(ps: Preferences) returns (r: Preferences)
    requires DictsValid(ps)
    ensures r == NormalizePreferences(ps)
  {
    var genres := NormalizeMap(ps.genres);
    var actors := NormalizeMap(ps.actors);
    var directors := NormalizeMap(ps.directors);
    var themes := NormalizeMap(ps.themes);
    var publishers := NormalizeMap(ps.publishers);
    r := Preferences(genres, actors, directors, themes, publishers);
  }

  /** `_normalize_preferences` over the five maps. */
  function NormalizePreferences(ps: Preferences): (r: Preferences)
    requires DictsValid(ps)
    ensures PrefsValid(r)
  {
    Preferences(
      Normalize(ps.genres), Normalize(ps.actors), Normalize(ps.directors),
      Normalize(ps.themes), Normalize(ps.publishers))
  }

  /** The entry `_add_recent_interaction` logs. */
  function LogEntry(drama: Record, kind: string, now: string): Interaction
  {
    Interaction(Get2(drama, "Title", "title", "Unknown"), kind, now)
  }

  /**
   * `update_from_interaction` on profile `p`, including the `last_updated` stamp the save writes:
   * counters, rating statistics, the weighted update of each label map, the recent log, viewing
   * patterns (seeing the new watched count), then normalisation of every map.
   */
  function ApplyInteraction(p: Profile, drama: Record, kind: string, rating: Option<real>, now: string): (q: Profile)
    requires DictsValid(p.preferences)
    ensures PrefsValid(q.preferences)
    ensures q.userId == p.userId && q.createdAt == p.createdAt && q.lastUpdated == now
  {
    var stats := UpdateStatistics(p.statistics, kind, rating);
    p.(lastUpdated := now,
       statistics := stats,
       preferences := NormalizePreferences(BumpPreferences(p.preferences, drama, Weight(kind, rating))),
       recentInteractions := AddRecent(p.recentInteractions, LogEntry(drama, kind, now)),
       viewingPatterns := AnalyzePatterns(p.viewingPatterns, drama, stats.totalWatched))
  }

  /** An update keeps a profile valid. */
  lemma ApplyInteractionValid(p: Profile, drama: Record, kind: string, rating: Option<real>, now: string)
    requires ProfileValid(p)
    ensures ProfileValid(ApplyInteraction(p, drama, kind, rating, now))
  {
  }

  /**
   * The counters of one update: one more interaction, exactly the typed counter the interaction
   * names goes up, and the rating mean takes in the rating when there is one.
   */
  lemma UpdateStatisticsSpec(s: Statistics, kind: string, rating: Option<real>)
    ensures var r := UpdateStatistics(s, kind, rating);
      && r.totalInteractions == s.totalInteractions + 1
      && (r.totalClicks == s.totalClicks + 1 <==> kind == "click")
      && (r.totalWatchlistAdds == s.totalWatchlistAdds + 1 <==> kind == "watchlist_add")
      && (r.totalWatched == s.totalWatched + 1 <==> kind == "watched")
      && (rating.None? ==> r.totalRatings == s.totalRatings && r.avgRating == s.avgRating)
      && (rating.Some? ==>
            r.totalRatings == s.totalRatings + 1 &&
            r.avgRating * (r.totalRatings as real) == s.avgRating * (s.totalRatings as real) + rating.value)
  {
    CountInteractionExactlyOne(s, kind);
  }

  /** The log gains the new entry in front, and binge-watching once reached is never undone. */
  lemma ApplyInteractionLog(p: Profile, drama: Record, kind: string, rating: Option<real>, now: string)
    requires DictsValid(p.preferences)
    ensures var q := ApplyInteraction(p, drama, kind, rating, now);
      && q.recentInteractions[0] == LogEntry(drama, kind, now)
      && |q.recentInteractions| == Min(|p.recentInteractions| + 1, MaxRecent)
      && (p.viewingPatterns.bingeWatcher ==> q.viewingPatterns.bingeWatcher)
      && q.statistics == UpdateStatistics(p.statistics, kind, rating)
  {
  }

  /** The genre map after an update: the drama's genres bumped with the interaction weight, normalised. */
  lemma GenresAfterUpdate(p: Profile, drama: Record, kind: string, rating: Option<real>, now: string)
    requires DictsValid(p.preferences)
    ensures ApplyInteraction(p, drama, kind, rating, now).preferences.genres
         == Normalize(BumpAll(p.preferences.genres, GenreLabels(drama), Weight(kind, rating)))
  {
  }

  /**
   * Two watched interactions rated 5 take a genre new to the profile to 0.6, then to 0.68, whatever
   * else the drama carries.
   */
  lemma WatchedTwiceScenario(p: Profile, drama: Record)
    requires DictsValid(p.preferences) && p.preferences.genres == OD.Empty()
    requires Get2(drama, "Genre", "genres", "") == "Medical"
    ensures var p1 := ApplyInteraction(p, drama, "watched", Some(5.0), "t1");
      && p1.preferences.genres.vals == map["Medical" := 0.6]
      && ApplyInteraction(p1, drama, "watched", Some(5.0), "t2").preferences.genres.vals == map["Medical" := 0.68]
  {
    GenresOfMedical(drama);
    var p1 := ApplyInteraction(p, drama, "watched", Some(5.0), "t1");
    GenresAfterUpdate(p, drama, "watched", Some(5.0), "t1");
    WatchedFiveStep(p.preferences.genres, 0.6);
    GenresAfterUpdate(p1, drama, "watched", Some(5.0), "t2");
    WatchedFiveStep(p1.preferences.genres, 0.68);
  }

  /** One watched interaction rated 5 on the genre `Medical` of a map that knows at most that genre. */
  lemma WatchedFiveStep(g: OD.Dict, v: real)
    requires OD.Valid(g) && (g.keys == [] || g.keys == ["Medical"])
    requires v == EmaStep(OD.Get(g, "Medical", 0.5), 1.0) && 0.0 <= v <= 1.0
    ensures Normalize(BumpAll(g, ["Medical"], Weight("watched", Some(5.0))))
         == OD.Dict(["Medical"], map["Medical" := v])
  {
    BumpOnce(g, "Medical", v);
    NormalizeValidUnchanged(OD.Dict(["Medical"], map["Medical" := v]));
  }

  lemma BumpOnce(d: OD.Dict, name: string, v: real)
    requires OD.Valid(d) && name != ""
    requires v == EmaStep(OD.Get(d, name, 0.5), 1.0)
    requires d.keys == [] || d.keys == [name]
    ensures BumpAll(d, [name], 1.0) == OD.Dict([name], map[name := v])
  {
    assert [name][..0] == [];
    assert d.vals[name := v] == map[name := v];
  }

  lemma GenresOfMedical(drama: Record)
    requires Get2(drama, "Genre", "genres", "") == "Medical"
    ensures GenreLabels(drama) == ["Medical"]
  {
    SplitNoSep("Medical", ',');
    assert Strip("Medical") == "Medical" by {
      assert Trimmed("Medical");
      StripIdentity("Medical");
    }
  }

  // ---------------------------------------------------------------------------
  // The store
  // ---------------------------------------------------------------------------

  /** `prefs.get(pref_type, {})` on the name of a map. */
  function KindNamed(name: string): Option<PrefKind>
  {
    if name == "genres" then Some(Genres)
    else if name == "actors" then Some(Actors)
    else if name == "directors" then Some(Directors)
    else if name == "themes" then Some(Themes)
    else if name == "publishers" then Some(Publishers)
    else None
  }

  datatype ProfileSummary = ProfileSummary(
    userId: string, persona: string,
    topGenres: seq<(string, real)>, topActors: seq<(string, real)>,
    topDirectors: seq<(string, real)>, topThemes: seq<(string, real)>,
    statistics: Statistics, viewingPatterns: ViewingPatterns, lastUpdated: string)

  /** `UserProfileManager`: the saved profiles, by user id. */
  class ProfileStore {
    var profiles: map<string, Profile>

    ghost predicate Valid()
      reads this
    {
      forall u :: u in profiles ==> ProfileValid(profiles[u])
    }

    constructor()
      ensures Valid() && profiles == map[]
    {
      profiles := map[];
    }

    /** `load_profile`: the saved profile, or a fresh one that is not saved. */
    function Load(userId: string, now: string): (p: Profile)
      reads this
      requires Valid()
      ensures ProfileValid(p)
      ensures userId in profiles ==> p == profiles[userId]
      ensures userId !in profiles ==> p == NewProfile(userId, now)
    {
      if userId in profiles then profiles[userId] else NewProfile(userId, now)
    }

    /** `save_profile`: stamps the profile and stores it. */
    method Save(userId: string, p: Profile, now: string)
      requires Valid() && ProfileValid(p)
      modifies this
      ensures Valid()
      ensures profiles == old(profiles)[userId := p.(lastUpdated := now)]
    {
      profiles := profiles[userId := p.(lastUpdated := now)];
    }

    /** `update_from_interaction`: load, update step by step, save; returns the saved profile. */
    method UpdateFromInteraction(userId: string, drama: Record, kind: string, rating: Option<real>, now: string)
      returns (p: Profile)
      requires Valid()
      modifies this
      ensures Valid()
      ensures p == ApplyInteraction(old(Load(userId, now)), drama, kind, rating, now)
      ensures profiles == old(profiles)[userId := p]
    {
      p := Load(userId, now);
      ghost var p0 := p;
      var stats := CountInteraction(p.statistics, kind);
      var weight := BaseWeight(kind);
      if rating.Some? {
        stats := RecordRating(stats, rating.value);
        weight := weight * (rating.value / 5.0);
      }
      assert stats == UpdateStatistics(p0.statistics, kind, rating);
      assert weight == Weight(kind, rating);
      var bumped := UpdatePreferences(p.preferences, drama, weight);
      var recent := AddRecent(p.recentInteractions, LogEntry(drama, kind, now));
      var patterns := AnalyzePatterns(p.viewingPatterns, drama, stats.totalWatched);
      var normalized := NormalizeAll(bumped);
      p := p.(statistics := stats, preferences := normalized, recentInteractions := recent, viewingPatterns := patterns);
      ApplyInteractionValid(p0, drama, kind, rating, now);
      assert p.(lastUpdated := now) == ApplyInteraction(p0, drama, kind, rating, now);
      Save(userId, p, now);
      p := p.(lastUpdated := now);
    }

    /** `get_top_preferences`: the best `topN` labels of one map, best first; none for an unknown map. */
    function TopPreferences(userId: string, prefType: string, topN: int, now: string): (r: seq<(string, real)>)
      reads this
      requires Valid()
      ensures KindNamed(prefType).None? ==> r == []
      ensures topN >= 0 ==> |r| <= topN
      ensures forall i, j :: 0 <= i < j < |r| ==> r[i].1 >= r[j].1
      ensures forall i :: 0 <= i < |r| ==> 0.0 <= r[i].1 <= 1.0
      ensures KindNamed(prefType).Some? ==>
        var d := Load(userId, now).preferences.Of(KindNamed(prefType).value);
        && (topN >= 0 ==> |r| == Min(topN, |d.keys|))
        && (forall i :: 0 <= i < |r| ==> r[i].0 in d.vals && r[i].1 == d.vals[r[i].0])
        && Distinct(OD.KeysOf(r))
        && (forall i, k :: 0 <= i < |r| && k in d.vals && k !in OD.KeysOf(r) ==> d.vals[k] <= r[i].1)
    {
      match KindNamed(prefType)
      case None => []
      case Some(kind) =>
        var d := Load(userId, now).preferences.Of(kind);
        PrefsValidOf(Load(userId, now).preferences, kind);
        TopItemsSpec(d, topN);
        TopItems(d, topN)
    }

    /** `get_profile_summary` */
    function Summary(userId: string, now: string): (s: ProfileSummary)
      reads this
      requires Valid()
      ensures |s.topGenres| <= 5 && |s.topActors| <= 5 && |s.topDirectors| <= 3 && |s.topThemes| <= 5
      ensures s.topGenres == TopPreferences(userId, "genres", 5, now)
      ensures s.topActors == TopPreferences(userId, "actors", 5, now)
      ensures s.topDirectors == TopPreferences(userId, "directors", 3, now)
      ensures s.topThemes == TopPreferences(userId, "themes", 5, now)
      ensures s.persona == Persona(Load(userId, now).preferences.genres)
      ensures s.statistics == Load(userId, now).statistics
      ensures userId !in profiles ==> s.persona == "New Viewer"
    {
      var p := Load(userId, now);
      ProfileSummary(userId, Persona(p.preferences.genres),
        TopPreferences(userId, "genres", 5, now), TopPreferences(userId, "actors", 5, now),
        TopPreferences(userId, "directors", 3, now), TopPreferences(userId, "themes", 5, now),
        p.statistics, p.viewingPatterns, p.lastUpdated)
    }
  }
}
