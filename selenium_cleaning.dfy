/**
 * The Selenium scraper's copy of the cleaning helpers. `remove_refs`, `clean_multiline` and
 * `clean_description` are character-for-character the Playwright ones and are modelled once, in
 * WikiCleaning; `extract_years_from_release` differs: it first runs the capture-group pattern
 * `(19|20)\d{2}` and answers "-" when that finds nothing, before running the same non-capturing scan.
 */
module SeleniumCleaning {
  import opened PyStr
  import opened WikiCleaning

  /** `re.findall(r'(19|20)\d{2}', s)`: the captured century of each leftmost non-overlapping match. */
  function FindYearCenturies(s: string): (cs: seq<string>)
    ensures forall i :: 0 <= i < |cs| ==> cs[i] == "19" || cs[i] == "20"
    decreases |s|
  {
    if |s| < 4 then []
    else if YearAt(s, 0) then [s[..2]] + FindYearCenturies(s[4..])
    else FindYearCenturies(s[1..])
  }

  /** The capture-group scan matches at exactly the places the full-year scan does. */
  lemma {:induction false} CenturiesMatchYears(s: string)
    ensures |FindYearCenturies(s)| == |FindYears(s)|
    ensures forall i :: 0 <= i < |FindYears(s)| ==> FindYearCenturies(s)[i] == FindYears(s)[i][..2]
    decreases |s|
  {
    if |s| >= 4 {
      if YearAt(s, 0) {
        CenturiesMatchYears(s[4..]);
        assert s[..4][..2] == s[..2];
      } else {
        CenturiesMatchYears(s[1..]);
      }
    }
  }

  function ExtractYearsFromRelease(text: string): (r: string)
    ensures IsMissingOrDash(text) ==> r == "-"
    ensures !IsMissingOrDash(text) && FindYearCenturies(RemoveRefs(text)) == [] ==> r == "-"
  {
    if IsMissingOrDash(text) then "-"
    else
      var t := RemoveRefs(text);
      if FindYearCenturies(t) == [] then "-"
      else Join(Dedupe(FindYears(t)), ", ")
  }

  /** The two scrapers extract the same years from every release text. */
  lemma SameAsPlaywright(text: string)
    ensures ExtractYearsFromRelease(text) == WikiCleaning.ExtractYearsFromRelease(text)
  {
    if !IsMissingOrDash(text) {
      var t := RemoveRefs(text);
      CenturiesMatchYears(t);
      DedupeEmpty(FindYears(t));
      assert WikiCleaning.ReleaseYears(text) == Dedupe(FindYears(t));
    }
  }

  lemma DedupeEmpty(found: seq<string>)
    ensures Dedupe(found) == [] <==> found == []
  {
    if found != [] {
      assert found[0] in Dedupe(found);
    }
  }
}
