/**
 * The text-cleaning helpers of the Wikipedia scrapers: reference-marker removal, multi-line
 * joining, white-space normalisation of descriptions and release-year extraction.
 * Regular expressions are modelled by the scans they perform, over ASCII white space and digits.
 */
module WikiCleaning {
  import opened PyStr

  // ---------------------------------------------------------------------------
  // remove_refs: re.sub(r'\[.*?\]', '', text)
  // ---------------------------------------------------------------------------

  /** Where the shortest `.*?\]` after an opening bracket stops: the first `]` or newline. */
  function CloseAt(t: string): (i: nat)
    ensures i <= |t|
    ensures forall k :: 0 <= k < i ==> t[k] != ']' && t[k] != '\n'
    ensures i < |t| ==> t[i] == ']' || t[i] == '\n'
  {
    if t == [] then 0
    else if t[0] == ']' || t[0] == '\n' then 0
    else 1 + CloseAt(t[1..])
  }

  /** A `[` followed by `t` starts a reference marker: `.` never matches a newline. */
  predicate Closes(t: string)
  {
    CloseAt(t) < |t| && t[CloseAt(t)] == ']'
  }

  /** Deletes, left to right, every shortest `[...]` span that stays on one line. */
  function RemoveRefs(s: string): (r: string)
    ensures |r| <= |s|
    decreases |s|
  {
    if s == [] then []
    else if s[0] == '[' && Closes(s[1..]) then RemoveRefs(s[1..][CloseAt(s[1..]) + 1..])
    else [s[0]] + RemoveRefs(s[1..])
  }

  /** `remove_refs` only deletes characters. */
  lemma {:induction false} RemoveRefsChars(s: string)
    ensures forall c :: c in RemoveRefs(s) ==> c in s
    decreases |s|
  {
    if s != [] {
      if s[0] == '[' && Closes(s[1..]) {
        var rest := s[1..][CloseAt(s[1..]) + 1..];
        RemoveRefsChars(rest);
        SuffixChars(s, |s| - |rest|);
      } else {
        RemoveRefsChars(s[1..]);
      }
    }
  }

  lemma SuffixChars(s: string, k: nat)
    requires k <= |s|
    ensures forall c :: c in s[k..] ==> c in s
  {
    forall c | c in s[k..] ensures c in s {
      var i :| 0 <= i < |s| - k && s[k..][i] == c;
      assert s[k + i] == c;
    }
  }

  /** No position holds a reference marker that `remove_refs` would delete. */
  predicate NoRefs(s: string)
  {
    s == [] || ((s[0] == '[' ==> !Closes(s[1..])) && NoRefs(s[1..]))
  }

  lemma ClosesCons(c: char, t: string)
    requires c != ']' && c != '\n'
    ensures CloseAt([c] + t) == 1 + CloseAt(t)
    ensures Closes([c] + t) == Closes(t)
  {
    assert ([c] + t)[1..] == t;
  }

  /** A bracket that does not close before the next newline still does not close once refs are removed. */
  lemma {:induction false} NotClosesPreserved(t: string)
    requires !Closes(t)
    ensures !Closes(RemoveRefs(t))
    decreases |t|
  {
    if t != [] && t[0] != '\n' {
      assert t == [t[0]] + t[1..];
      ClosesCons(t[0], t[1..]);
      NotClosesPreserved(t[1..]);
      assert RemoveRefs(t) == [t[0]] + RemoveRefs(t[1..]);
      ClosesCons(t[0], RemoveRefs(t[1..]));
    } else if t != [] {
      assert RemoveRefs(t) == ['\n'] + RemoveRefs(t[1..]);
    }
  }

  /** Nothing removable is left after one pass. */
  lemma {:induction false} RemoveRefsNoRefs(s: string)
    ensures NoRefs(RemoveRefs(s))
    decreases |s|
  {
    if s != [] {
      if s[0] == '[' && Closes(s[1..]) {
        RemoveRefsNoRefs(s[1..][CloseAt(s[1..]) + 1..]);
      } else {
        var r := RemoveRefs(s);
        assert r[1..] == RemoveRefs(s[1..]);
        RemoveRefsNoRefs(s[1..]);
        if s[0] == '[' {
          NotClosesPreserved(s[1..]);
        }
      }
    }
  }

  lemma {:induction false} NoRefsFixed(s: string)
    requires NoRefs(s)
    ensures RemoveRefs(s) == s
  {
    if s != [] {
      NoRefsFixed(s[1..]);
    }
  }

  /** `remove_refs` leaves a text alone exactly when the text holds no reference marker. */
  lemma RemoveRefsFixedIff(s: string)
    ensures RemoveRefs(s) == s <==> NoRefs(s)
  {
    RemoveRefsNoRefs(s);
    if NoRefs(s) {
      NoRefsFixed(s);
    }
  }

  /** Applying `remove_refs` twice is applying it once. */
  lemma RemoveRefsIdempotent(s: string)
    ensures RemoveRefs(RemoveRefs(s)) == RemoveRefs(s)
  {
    RemoveRefsNoRefs(s);
    NoRefsFixed(RemoveRefs(s));
  }

  /** The output of `remove_refs` is its input with some characters deleted. */
  predicate Subsequence(a: string, b: string)
    decreases |b|
  {
    a == [] || (b != [] && ((a[0] == b[0] && Subsequence(a[1..], b[1..])) || Subsequence(a, b[1..])))
  }

  lemma {:induction false} SubsequenceDrop(a: string, b: string, k: nat)
    requires k <= |b|
    requires Subsequence(a, b[k..])
    ensures Subsequence(a, b)
    decreases k
  {
    if k > 0 {
      assert b[1..][k - 1..] == b[k..];
      SubsequenceDrop(a, b[1..], k - 1);
    }
  }

  lemma {:induction false} RemoveRefsSubsequence(s: string)
    ensures Subsequence(RemoveRefs(s), s)
    decreases |s|
  {
    if s != [] {
      if s[0] == '[' && Closes(s[1..]) {
        var rest := s[1..][CloseAt(s[1..]) + 1..];
        RemoveRefsSubsequence(rest);
        assert rest == s[|s| - |rest|..];
        SubsequenceDrop(RemoveRefs(s), s, |s| - |rest|);
      } else {
        RemoveRefsSubsequence(s[1..]);
        assert RemoveRefs(s)[1..] == RemoveRefs(s[1..]);
      }
    }
  }

  /** A text without any `[` has nothing to remove. */
  lemma {:induction false} NoOpenBracketNoRefs(s: string)
    requires '[' !in s
    ensures NoRefs(s)
  {
    if s != [] {
      NoOpenBracketNoRefs(s[1..]);
    }
  }

  // ---------------------------------------------------------------------------
  // Placeholder checks: `not text or str(text).strip().lower() in [...]`
  // ---------------------------------------------------------------------------

  predicate IsMissing(text: string)
  {
    text == [] || Lower(Strip(text)) == "n/a" || Lower(Strip(text)) == "na"
  }

  predicate IsMissingOrDash(text: string)
  {
    IsMissing(text) || Lower(Strip(text)) == "-"
  }

  // ---------------------------------------------------------------------------
  // clean_multiline
  // ---------------------------------------------------------------------------

  predicate IsLineBreak(c: char)
  {
    c == '\n' || c == '\r'
  }

  /** Index of the first `\n` or `\r`, or the length. */
  function BreakAt(s: string): (i: nat)
    ensures i <= |s|
    ensures forall k :: 0 <= k < i ==> !IsLineBreak(s[k])
    ensures i < |s| ==> IsLineBreak(s[i])
  {
    if s == [] || IsLineBreak(s[0]) then 0 else 1 + BreakAt(s[1..])
  }

  /** Drops a leading run of `\n`/`\r`. */
  function DropBreaks(s: string): (r: string)
    ensures |r| <= |s| && r == s[|s| - |r|..]
    ensures r == [] || !IsLineBreak(r[0])
  {
    if s != [] && IsLineBreak(s[0]) then DropBreaks(s[1..]) else s
  }

  /** `re.split(r'[\n\r]+', s)`: the pieces between maximal runs of line breaks. */
  function SplitLines(s: string): (parts: seq<string>)
    ensures |parts| >= 1
    decreases |s|
  {
    var i := BreakAt(s);
    if i == |s| then [s]
    else
      DropBreaksShorter(s[i..]);
      [s[..i]] + SplitLines(DropBreaks(s[i..]))
  }

  /** No piece holds a line break. */
  lemma {:induction false} SplitLinesNoBreaks(s: string)
    ensures forall i :: 0 <= i < |SplitLines(s)| ==> '\n' !in SplitLines(s)[i] && '\r' !in SplitLines(s)[i]
    decreases |s|
  {
    var i := BreakAt(s);
    BeforeBreak(s, i);
    if i < |s| {
      DropBreaksShorter(s[i..]);
      var rest := DropBreaks(s[i..]);
      SplitLinesNoBreaks(rest);
      var parts := SplitLines(s);
      assert parts == [s[..i]] + SplitLines(rest);
      forall k | 0 <= k < |parts| ensures '\n' !in parts[k] && '\r' !in parts[k] {
        if k > 0 {
          assert parts[k] == SplitLines(rest)[k - 1];
        }
      }
    }
  }

  lemma BeforeBreak(s: string, i: nat)
    requires i <= |s|
    requires forall k :: 0 <= k < i ==> !IsLineBreak(s[k])
    ensures '\n' !in s[..i] && '\r' !in s[..i]
  {
    assert forall k :: 0 <= k < i ==> s[..i][k] == s[k];
  }

  lemma DropBreaksShorter(t: string)
    requires t != [] && IsLineBreak(t[0])
    ensures |DropBreaks(t)| < |t|
  {
  }

  /** `[p.strip() for p in parts if p.strip()]` */
  function NonBlankStripped(parts: seq<string>): (r: seq<string>)
    ensures |r| <= |parts|
    ensures forall i :: 0 <= i < |r| ==> r[i] != [] && Trimmed(r[i])
  {
    if parts == [] then []
    else
      var p := Strip(parts[0]);
      if p == [] then NonBlankStripped(parts[1..]) else [p] + NonBlankStripped(parts[1..])
  }

  lemma {:induction false} NonBlankStrippedChars(parts: seq<string>, c: char)
    requires forall i :: 0 <= i < |parts| ==> c !in parts[i]
    ensures forall i :: 0 <= i < |NonBlankStripped(parts)| ==> c !in NonBlankStripped(parts)[i]
  {
    if parts != [] {
      NonBlankStrippedChars(parts[1..], c);
      var p := Strip(parts[0]);
      StripChars(parts[0]);
      var rest := NonBlankStripped(parts[1..]);
      if p != [] {
        assert NonBlankStripped(parts) == [p] + rest;
      }
    }
  }

  /** Multi-line infobox text as one comma-separated line. */
  function CleanMultiline(text: string): (r: string)
    ensures IsMissing(text) ==> r == "-"
    ensures r != []
    ensures '\n' !in r && '\r' !in r
  {
    if IsMissing(text) then "-"
    else
      var parts := NonBlankStripped(SplitLines(RemoveRefs(text)));
      if parts == [] then "-"
      else
        MultilineJoinShape(RemoveRefs(text));
        Join(parts, ", ")
  }

  /** Every piece of an all-whitespace text strips to nothing, so no line survives. */
  lemma {:induction false} SplitLinesBlank(s: string)
    requires forall k :: 0 <= k < |s| ==> IsSpace(s[k])
    ensures NonBlankStripped(SplitLines(s)) == []
    decreases |s|
  {
    var i := BreakAt(s);
    var first := s[..i];
    assert forall k :: 0 <= k < |first| ==> first[k] == s[k];
    StripBlank(first);
    var parts := SplitLines(s);
    if i == |s| {
      assert first == s;
      assert parts == [first];
    } else {
      DropBreaksShorter(s[i..]);
      var t := s[i..];
      var rest := DropBreaks(t);
      SpaceSuffix(s, i);
      SpaceSuffix(t, |t| - |rest|);
      SplitLinesBlank(rest);
      assert parts == [first] + SplitLines(rest);
    }
    assert NonBlankStripped(parts) == NonBlankStripped(parts[1..]);
  }

  lemma SpaceSuffix(s: string, j: nat)
    requires j <= |s|
    requires forall k :: 0 <= k < |s| ==> IsSpace(s[k])
    ensures forall k :: 0 <= k < |s[j..]| ==> IsSpace(s[j..][k])
  {
    assert forall k :: 0 <= k < |s[j..]| ==> s[j..][k] == s[j + k];
  }

  /** A text that is all whitespace once references are removed cleans to "-". */
  lemma CleanMultilineBlank(text: string)
    requires forall k :: 0 <= k < |RemoveRefs(text)| ==> IsSpace(RemoveRefs(text)[k])
    ensures CleanMultiline(text) == "-"
  {
    SplitLinesBlank(RemoveRefs(text));
  }

  /** The joined non-blank lines hold no line break, and are not empty when some line is not blank. */
  lemma MultilineJoinShape(t: string)
    ensures var j := Join(NonBlankStripped(SplitLines(t)), ", ");
      && '\n' !in j && '\r' !in j
      && (NonBlankStripped(SplitLines(t)) != [] ==> j != [])
  {
    var parts := NonBlankStripped(SplitLines(t));
    if parts != [] {
      assert parts[0] != [];
      assert |Join(parts, ", ")| >= |parts[0]|;
    }
    SplitLinesNoBreaks(t);
    JoinedPartsWithout(SplitLines(t), '\n');
    JoinedPartsWithout(SplitLines(t), '\r');
  }

  lemma JoinedPartsWithout(lines: seq<string>, c: char)
    requires c != ',' && c != ' '
    requires forall i :: 0 <= i < |lines| ==> c !in lines[i]
    ensures c !in Join(NonBlankStripped(lines), ", ")
  {
    NonBlankStrippedChars(lines, c);
    JoinWithout(NonBlankStripped(lines), ", ", c);
  }

  /** Lines without line breaks, none of them empty. */
  ghost predicate PlainLines(parts: seq<string>)
  {
    forall i :: 0 <= i < |parts| ==> parts[i] != [] && '\n' !in parts[i] && '\r' !in parts[i]
  }

  lemma {:induction false} SplitLinesJoin(parts: seq<string>)
    requires parts != [] && PlainLines(parts)
    ensures SplitLines(Join(parts, "\n")) == parts
  {
    var p := parts[0];
    assert BreakAt(p) == |p| by { BreakAtNone(p); }
    if |parts| > 1 {
      var rest := Join(parts[1..], "\n");
      var s := p + "\n" + rest;
      assert s == Join(parts, "\n");
      assert BreakAt(s) == |p| by {
        BreakAtPrefix(p, "\n" + rest);
        assert s == p + ("\n" + rest);
      }
      assert s[..|p|] == p;
      assert s[|p|..] == "\n" + rest;
      JoinStartsWith(parts[1..]);
      assert DropBreaks("\n" + rest) == rest by {
        assert ("\n" + rest)[1..] == rest;
      }
      SplitLinesJoin(parts[1..]);
    }
  }

  lemma {:induction false} BreakAtNone(p: string)
    requires '\n' !in p && '\r' !in p
    ensures BreakAt(p) == |p|
  {
    if p != [] {
      assert p[0] in p;
      assert forall c :: c in p[1..] ==> c in p;
      BreakAtNone(p[1..]);
    }
  }

  lemma {:induction false} BreakAtPrefix(p: string, t: string)
    requires '\n' !in p && '\r' !in p
    requires t != [] && IsLineBreak(t[0])
    ensures BreakAt(p + t) == |p|
  {
    if p != [] {
      assert p[0] in p;
      assert forall c :: c in p[1..] ==> c in p;
      assert (p + t)[1..] == p[1..] + t;
      BreakAtPrefix(p[1..], t);
    } else {
      assert p + t == t;
    }
  }

  lemma JoinStartsWith(parts: seq<string>)
    requires parts != [] && PlainLines(parts)
    ensures var j := Join(parts, "\n"); j != [] && j[0] == parts[0][0] && !IsLineBreak(j[0])
  {
    assert parts[0][0] in parts[0];
    if |parts| > 1 {
      assert Join(parts, "\n") == parts[0] + ("\n" + Join(parts[1..], "\n"));
    }
  }

  lemma {:induction false} NonBlankStrippedFixed(parts: seq<string>)
    requires forall i :: 0 <= i < |parts| ==> parts[i] != [] && Trimmed(parts[i])
    ensures NonBlankStripped(parts) == parts
  {
    if parts != [] {
      StripIdentity(parts[0]);
      NonBlankStrippedFixed(parts[1..]);
    }
  }

  /** Trimmed, bracket-free lines joined by newlines come back joined by ", ". */
  lemma CleanMultilineRoundTrip(parts: seq<string>)
    requires parts != [] && PlainLines(parts)
    requires forall i :: 0 <= i < |parts| ==> Trimmed(parts[i]) && '[' !in parts[i]
    requires !IsMissing(Join(parts, "\n"))
    ensures CleanMultiline(Join(parts, "\n")) == Join(parts, ", ")
  {
    var text := Join(parts, "\n");
    JoinWithout(parts, "\n", '[');
    NoOpenBracketNoRefs(text);
    NoRefsFixed(text);
    SplitLinesJoin(parts);
    NonBlankStrippedFixed(parts);
  }

  // ---------------------------------------------------------------------------
  // clean_description
  // ---------------------------------------------------------------------------

  /** `re.sub(r'\s+', ' ', s)`: every run of white space becomes one space. */
  function Collapse(s: string): (r: string)
    ensures (r == []) == (s == [])
    ensures r != [] ==> (IsSpace(r[0]) <==> IsSpace(s[0]))
    decreases |s|
  {
    if s == [] then []
    else if IsSpace(s[0]) then [' '] + Collapse(TrimLeft(s))
    else [s[0]] + Collapse(s[1..])
  }

  /** Collapsing white space adds no character but the plain space. */
  lemma {:induction false} CollapseChars(s: string)
    ensures forall c :: c in Collapse(s) ==> c in s || c == ' '
    decreases |s|
  {
    if s != [] {
      if IsSpace(s[0]) {
        var rest := TrimLeft(s);
        CollapseChars(rest);
        SuffixChars(s, |s| - |rest|);
      } else {
        CollapseChars(s[1..]);
      }
    }
  }

  /** Collapsed text holds only plain spaces, never two in a row. */
  lemma {:induction false} CollapseSpaces(s: string)
    ensures PlainSpaces(Collapse(s)) && SingleSpaced(Collapse(s))
    decreases |s|
  {
    if s != [] {
      if IsSpace(s[0]) {
        var rest := TrimLeft(s);
        CollapseSpaces(rest);
        ConsSpaced(' ', Collapse(rest));
      } else {
        CollapseSpaces(s[1..]);
        ConsSpaced(s[0], Collapse(s[1..]));
      }
    }
  }

  lemma ConsSpaced(c: char, r: string)
    requires PlainSpaces(r) && SingleSpaced(r)
    requires IsSpace(c) ==> c == ' ' && (r == [] || !IsSpace(r[0]))
    ensures PlainSpaces([c] + r) && SingleSpaced([c] + r)
  {
    var t := [c] + r;
    assert forall i :: 1 <= i < |t| ==> t[i] == r[i - 1];
    forall i | 0 <= i && i + 1 < |t| ensures !SpaceRun(t, i) {
      if i > 0 {
        assert !SpaceRun(r, i - 1);
      }
    }
  }

  /** Every white-space character is a plain space. */
  ghost predicate PlainSpaces(s: string)
  {
    forall i :: 0 <= i < |s| && IsSpace(s[i]) ==> s[i] == ' '
  }

  /** No two white-space characters in a row. */
  ghost predicate SingleSpaced(s: string)
  {
    forall i :: 0 <= i && i + 1 < |s| ==> !SpaceRun(s, i)
  }

  /** Positions `i` and `i + 1` both hold white space. */
  ghost predicate SpaceRun(s: string, i: nat)
    requires i + 1 < |s|
  {
    IsSpace(s[i]) && IsSpace(s[i + 1])
  }

  /** Non-empty, no white space at either end, only plain spaces, and never two in a row. */
  ghost predicate Tidy(r: string)
  {
    && r != []
    && !IsSpace(r[0]) && !IsSpace(r[|r| - 1])
    && PlainSpaces(r)
    && SingleSpaced(r)
  }

  function CleanDescription(desc: string): (r: string)
    ensures desc == [] ==> r == "-"
    ensures Tidy(r)
  {
    if desc == [] then "-"
    else
      var t := Strip(Collapse(RemoveRefs(desc)));
      if t == [] then "-"
      else
        StripCollapseTidy(RemoveRefs(desc));
        t
  }

  lemma StripCollapseTidy(x: string)
    requires Strip(Collapse(x)) != []
    ensures Tidy(Strip(Collapse(x)))
  {
    CollapseSpaces(x);
    StripTidy(Collapse(x));
  }

  lemma StripTidy(c: string)
    requires PlainSpaces(c) && SingleSpaced(c)
    requires Strip(c) != []
    ensures Tidy(Strip(c))
  {
    var r := Strip(c);
    StripIsSlice(c);
    SliceTidy(c, r, LeadingSpace(c));
  }

  lemma SliceTidy(c: string, r: string, off: nat)
    requires off + |r| <= |c| && r == c[off..off + |r|]
    requires PlainSpaces(c)
    requires SingleSpaced(c)
    ensures PlainSpaces(r) && SingleSpaced(r)
  {
    forall i | 0 <= i < |r| ensures r[i] == c[off + i] {
    }
    forall i | 0 <= i && i + 1 < |r| ensures !SpaceRun(r, i) {
      assert !SpaceRun(c, off + i);
    }
  }


  /** A description that is empty, or all white space once reference markers are gone, becomes "-". */
  lemma CleanDescriptionBlank(desc: string)
    requires forall k :: 0 <= k < |RemoveRefs(desc)| ==> IsSpace(RemoveRefs(desc)[k])
    ensures CleanDescription(desc) == "-"
  {
    var x := RemoveRefs(desc);
    var c := Collapse(x);
    CollapseChars(x);
    forall k | 0 <= k < |c| ensures IsSpace(c[k]) {
      assert c[k] in c;
    }
    StripBlank(c);
  }

  /** No `[` is followed, anywhere later, by a `]`. */
  predicate NoBracketPair(s: string)
  {
    s == [] || ((s[0] == '[' ==> ']' !in s[1..]) && NoBracketPair(s[1..]))
  }

  lemma {:induction false} NoBracketPairNoRefs(s: string)
    requires NoBracketPair(s)
    ensures NoRefs(s)
  {
    if s != [] {
      NoBracketPairNoRefs(s[1..]);
      ClosesHasBracket(s[1..]);
    }
  }

  /** A reference marker ends in a `]`. */
  lemma ClosesHasBracket(t: string)
    ensures Closes(t) ==> ']' in t
  {
    if Closes(t) {
      assert t[CloseAt(t)] in t;
    }
  }

  /** On a single line, any `]` closes the marker. */
  lemma CloseOnOneLine(t: string)
    requires '\n' !in t
    ensures ']' in t ==> Closes(t)
  {
    if ']' in t {
      var k :| 0 <= k < |t| && t[k] == ']';
      assert CloseAt(t) <= k;
      assert t[CloseAt(t)] in t;
    }
  }

  lemma {:induction false} NoRefsOneLine(s: string)
    requires NoRefs(s) && '\n' !in s
    ensures NoBracketPair(s)
  {
    if s != [] {
      assert forall c :: c in s[1..] ==> c in s;
      NoRefsOneLine(s[1..]);
      CloseOnOneLine(s[1..]);
    }
  }

  lemma {:induction false} CollapseNoBracketPair(s: string)
    requires NoBracketPair(s)
    ensures NoBracketPair(Collapse(s))
    decreases |s|
  {
    if s != [] {
      if IsSpace(s[0]) {
        var rest := TrimLeft(s);
        NoBracketPairSuffix(s, |s| - |rest|);
        CollapseNoBracketPair(rest);
        assert Collapse(s)[1..] == Collapse(rest);
      } else {
        CollapseNoBracketPair(s[1..]);
        CollapseChars(s[1..]);
        assert Collapse(s)[1..] == Collapse(s[1..]);
      }
    }
  }

  lemma {:induction false} NoBracketPairSuffix(s: string, k: nat)
    requires k <= |s| && NoBracketPair(s)
    ensures NoBracketPair(s[k..])
    decreases k
  {
    if k > 0 {
      assert s[1..][k - 1..] == s[k..];
      NoBracketPairSuffix(s[1..], k - 1);
    }
  }

  lemma {:induction false} NoBracketPairPrefix(s: string, k: nat)
    requires k <= |s| && NoBracketPair(s)
    ensures NoBracketPair(s[..k])
  {
    if k > 0 {
      assert s[..k][1..] == s[1..][..k - 1];
      NoBracketPairPrefix(s[1..], k - 1);
      assert forall c :: c in s[1..][..k - 1] ==> c in s[1..];
    }
  }

  lemma TrimLeftOne(s: string)
    requires s != [] && IsSpace(s[0])
    requires |s| == 1 || !IsSpace(s[1])
    ensures TrimLeft(s) == s[1..]
  {
    assert TrimLeft(s) == TrimLeft(s[1..]);
  }

  /** Text that is already collapsed is left alone by `re.sub(r'\s+', ' ', ...)`. */
  lemma {:induction false} CollapseFixed(s: string)
    requires PlainSpaces(s)
    requires SingleSpaced(s)
    ensures Collapse(s) == s
    decreases |s|
  {
    if s != [] {
      TidyTail(s);
      CollapseFixed(s[1..]);
      if IsSpace(s[0]) {
        TrimLeftOne(s);
        assert s[0] == ' ';
      }
      assert s == [s[0]] + s[1..];
    }
  }

  /** The tail of collapsed text is collapsed, and a leading space is followed by no other. */
  lemma TidyTail(s: string)
    requires s != []
    requires PlainSpaces(s)
    requires SingleSpaced(s)
    ensures PlainSpaces(s[1..]) && SingleSpaced(s[1..])
    ensures IsSpace(s[0]) ==> s[0] == ' ' && (|s| == 1 || !IsSpace(s[1]))
  {
    var t := s[1..];
    assert forall i :: 0 <= i < |t| ==> t[i] == s[i + 1];
    forall i | 0 <= i && i + 1 < |t| ensures !SpaceRun(t, i) {
      assert !SpaceRun(s, i + 1);
    }
    if IsSpace(s[0]) && |s| > 1 {
      assert !SpaceRun(s, 0);
    }
  }

  /** On text without newlines, cleaning a cleaned description changes nothing. */
  lemma CleanDescriptionIdempotent(desc: string)
    requires '\n' !in desc
    ensures CleanDescription(CleanDescription(desc)) == CleanDescription(desc)
  {
    var r := CleanDescription(desc);
    if r == "-" {
      DashIsClean();
    } else {
      CleanedHasNoBracketPair(desc);
      TidyIsClean(r);
    }
  }

  /** A tidy text without a bracket pair is its own cleaning. */
  lemma TidyIsClean(r: string)
    requires Tidy(r) && NoBracketPair(r)
    ensures CleanDescription(r) == r
  {
    NoBracketPairNoRefs(r);
    NoRefsFixed(r);
    CollapseFixed(r);
    StripIdentity(r);
  }

  lemma CleanedHasNoBracketPair(desc: string)
    requires '\n' !in desc
    requires CleanDescription(desc) != "-"
    ensures NoBracketPair(CleanDescription(desc))
  {
    var x := RemoveRefs(desc);
    RemoveRefsChars(desc);
    RemoveRefsNoRefs(desc);
    NoRefsOneLine(x);
    var c := Collapse(x);
    CollapseNoBracketPair(x);
    StrippedNoBracketPair(c);
  }

  lemma StrippedNoBracketPair(c: string)
    requires NoBracketPair(c)
    ensures NoBracketPair(Strip(c))
  {
    StripIsSlice(c);
    NoBracketPairSlice(c, LeadingSpace(c), |Strip(c)|);
  }

  lemma NoBracketPairSlice(c: string, off: nat, n: nat)
    requires off + n <= |c| && NoBracketPair(c)
    ensures NoBracketPair(c[off..off + n])
  {
    NoBracketPairSuffix(c, off);
    assert c[off..][..n] == c[off..off + n];
    NoBracketPairPrefix(c[off..], n);
  }

  lemma DashIsClean()
    ensures CleanDescription("-") == "-"
  {
    assert RemoveRefs("-") == "-" by {
      assert RemoveRefs("-") == ['-'] + RemoveRefs([]);
    }
    assert Collapse("-") == "-" by {
      assert Collapse("-") == ['-'] + Collapse([]);
    }
    StripIdentity("-");
  }

  /**
   * Across a newline, idempotence fails: "[a\nb]" keeps its brackets (the newline stops the match),
   * the newline then becomes a space, and the second pass deletes the now one-line span.
   */
  lemma CleanDescriptionNotIdempotent()
    ensures CleanDescription("[a\nb]") == "[a b]"
    ensures CleanDescription("[a b]") == "-"
  {
    FirstPassKeepsBrackets();
    SecondPassRemovesThem();
  }

  lemma FirstPassKeepsBrackets()
    ensures CleanDescription("[a\nb]") == "[a b]"
  {
    RefsAcrossNewlineKept();
    CollapseExample();
    StripIdentity("[a b]");
  }

  lemma SecondPassRemovesThem()
    ensures CleanDescription("[a b]") == "-"
  {
    RefsOnOneLineRemoved();
    assert Collapse([]) == [];
    assert Strip([]) == [];
  }

  lemma RefsAcrossNewlineKept()
    ensures RemoveRefs("[a\nb]") == "[a\nb]"
  {
    var s := "[a\nb]";
    assert s[1..] == "a\nb]";
    assert CloseAt("a\nb]") == 1 + CloseAt("\nb]");
    NoOpenBracketNoRefs("a\nb]");
    NoRefsFixed("a\nb]");
    assert RemoveRefs(s) == ['['] + RemoveRefs("a\nb]");
  }

  lemma CollapseExample()
    ensures Collapse("[a\nb]") == "[a b]"
  {
    ExampleSpelled();
    CollapseBracketed();
  }

  lemma CollapseBracketed()
    ensures Collapse(['['] + (['a'] + "\nb]")) == ['['] + (['a'] + " b]")
  {
    CollapseAfterLetter();
    CollapseKeeps('[', ['a'] + "\nb]");
  }

  lemma CollapseAfterLetter()
    ensures Collapse(['a'] + "\nb]") == ['a'] + " b]"
  {
    CollapseAfterBreak();
    CollapseKeeps('a', "\nb]");
  }

  lemma ExampleSpelled()
    ensures "[a\nb]" == ['['] + (['a'] + "\nb]")
    ensures "[a b]" == ['['] + (['a'] + " b]")
  {
  }

  /** A character that is not white space is kept as it is. */
  lemma CollapseKeeps(c: char, t: string)
    requires !IsSpace(c)
    ensures Collapse([c] + t) == [c] + Collapse(t)
  {
    assert ([c] + t)[1..] == t;
  }

  lemma CollapseAfterBreak()
    ensures Collapse("\nb]") == " b]"
  {
    CollapseNoSpace();
    var s := "\nb]";
    assert s[1..] == "b]";
    assert TrimLeft("b]") == "b]";
    assert TrimLeft(s) == "b]";
  }

  lemma CollapseNoSpace()
    ensures Collapse("b]") == "b]"
  {
    assert Collapse("]") == [']'] + Collapse([]);
    assert "b]"[1..] == "]";
  }

  lemma RefsOnOneLineRemoved()
    ensures RemoveRefs("[a b]") == []
  {
    var t := "[a b]";
    assert t[1..] == "a b]";
    assert CloseAt("a b]") == 3 by {
      assert CloseAt("b]") == 1 + CloseAt("]");
      assert CloseAt(" b]") == 1 + CloseAt("b]");
      assert CloseAt("a b]") == 1 + CloseAt(" b]");
    }
    assert t[1..][4..] == [];
  }

  // ---------------------------------------------------------------------------
  // extract_years_from_release
  // ---------------------------------------------------------------------------

  /** `(?:19|20)\d{2}` matches at position `i`. */
  predicate YearAt(s: string, i: nat)
    requires i + 4 <= |s|
  {
    ((s[i] == '1' && s[i + 1] == '9') || (s[i] == '2' && s[i + 1] == '0'))
    && IsDigit(s[i + 2]) && IsDigit(s[i + 3])
  }

  predicate IsYear(y: string)
  {
    |y| == 4 && YearAt(y, 0)
  }

  /** `re.findall(r'(?:19|20)\d{2}', s)`: leftmost, non-overlapping matches. */
  function FindYears(s: string): (ys: seq<string>)
    ensures forall i :: 0 <= i < |ys| ==> IsYear(ys[i]) && Contains(s, ys[i])
    decreases |s|
  {
    if |s| < 4 then []
    else if YearAt(s, 0) then
      var rest := FindYears(s[4..]);
      ContainsAfter(s, 4, rest);
      [s[..4]] + rest
    else
      var rest := FindYears(s[1..]);
      ContainsAfter(s, 1, rest);
      rest
  }

  /**
   * `re.findall` finds a year exactly when one occurs in the text; the first one it reports is the
   * leftmost occurrence, and the others are the matches in the text after it.
   */
  lemma {:induction false} FindYearsComplete(s: string)
    ensures FindYears(s) == [] <==> forall i :: 0 <= i && i + 4 <= |s| ==> !YearAt(s, i)
    ensures FindYears(s) != [] ==> exists i ::
      && 0 <= i && i + 4 <= |s| && YearAt(s, i)
      && FindYears(s)[0] == s[i..i + 4]
      && FindYears(s)[1..] == FindYears(s[i + 4..])
      && forall j :: 0 <= j < i ==> !YearAt(s, j)
    decreases |s|
  {
    if |s| >= 4 && !YearAt(s, 0) {
      var t := s[1..];
      FindYearsComplete(t);
      forall i | 0 <= i && i + 4 <= |t| ensures YearAt(t, i) == YearAt(s, i + 1) {
        assert t[i..i + 4] == s[i + 1..i + 5];
      }
      if FindYears(t) != [] {
        var i :| 0 <= i && i + 4 <= |t| && YearAt(t, i)
          && FindYears(t)[0] == t[i..i + 4] && FindYears(t)[1..] == FindYears(t[i + 4..])
          && forall j :: 0 <= j < i ==> !YearAt(t, j);
        assert t[i..i + 4] == s[i + 1..i + 5];
        assert t[i + 4..] == s[i + 5..];
        forall j | 0 <= j < i + 1 ensures !YearAt(s, j) {
          if j > 0 { assert !YearAt(t, j - 1); }
        }
      } else {
        forall i | 0 <= i && i + 4 <= |s| ensures !YearAt(s, i) {
          if i > 0 { assert !YearAt(t, i - 1); }
        }
      }
    }
  }

  lemma ContainsAfter(s: string, k: nat, needles: seq<string>)
    requires k <= |s|
    requires forall i :: 0 <= i < |needles| ==> Contains(s[k..], needles[i])
    ensures forall i :: 0 <= i < |needles| ==> Contains(s, needles[i])
  {
    forall i | 0 <= i < |needles| ensures Contains(s, needles[i]) {
      ContainsSuffix(s, k, needles[i]);
    }
  }

  /** The distinct years in first-occurrence order, after removing reference markers. */
  function ReleaseYears(text: string): seq<string>
  {
    Dedupe(FindYears(RemoveRefs(text)))
  }

  function ExtractYearsFromRelease(text: string): (r: string)
    ensures IsMissingOrDash(text) ==> r == "-"
    ensures !IsMissingOrDash(text) && ReleaseYears(text) == [] ==> r == "-"
  {
    if IsMissingOrDash(text) then "-"
    else
      var ys := ReleaseYears(text);
      if ys == [] then "-" else Join(ys, ", ")
  }

  /** Every year reported is a distinct `19xx`/`20xx` string found in the ref-stripped text. */
  lemma ReleaseYearsShape(text: string)
    ensures var ys := ReleaseYears(text);
      && Distinct(ys)
      && (forall i :: 0 <= i < |ys| ==> IsYear(ys[i]) && Contains(RemoveRefs(text), ys[i]))
  {
    var found := FindYears(RemoveRefs(text));
    var ys := Dedupe(found);
    forall i | 0 <= i < |ys| ensures IsYear(ys[i]) && Contains(RemoveRefs(text), ys[i]) {
      var j :| 0 <= j < |found| && found[j] == ys[i];
    }
  }

  /** Years are reported in the order in which they are first found. */
  lemma ReleaseYearsOrder(text: string)
    ensures var found := FindYears(RemoveRefs(text));
      var ys := ReleaseYears(text);
      forall i, j :: 0 <= i < j < |ys| ==> FirstIndex(found, ys[i]) < FirstIndex(found, ys[j])
  {
    DedupeFirstOccurrenceOrder(FindYears(RemoveRefs(text)));
  }

  /** Characters that cannot start a year are skipped by the scan. */
  lemma FindYearsSkip(c: char, s: string)
    requires c != '1' && c != '2'
    ensures FindYears([c] + s) == FindYears(s)
  {
    var t := [c] + s;
    assert t[1..] == s;
    if |t| >= 4 {
      assert !YearAt(t, 0);
    }
  }

  /** Scanning a list of years joined by ", " finds exactly those years. */
  lemma {:induction false} FindYearsJoin(ys: seq<string>)
    requires forall i :: 0 <= i < |ys| ==> IsYear(ys[i])
    ensures FindYears(Join(ys, ", ")) == ys
  {
    if |ys| == 1 {
      assert FindYears(ys[0]) == [ys[0][..4]] + FindYears(ys[0][4..]);
      assert ys[0][..4] == ys[0];
    } else if |ys| > 1 {
      var rest := Join(ys[1..], ", ");
      FindYearsJoin(ys[1..]);
      FindYearsSkip(' ', rest);
      FindYearsSkip(',', " " + rest);
      var s := ys[0] + ", " + rest;
      assert s[..4] == ys[0];
      assert s[4..] == [','] + (" " + rest);
      assert YearAt(s, 0);
    }
  }

  lemma {:induction false} JoinYearsShape(ys: seq<string>)
    requires ys != []
    requires forall i :: 0 <= i < |ys| ==> IsYear(ys[i])
    ensures var j := Join(ys, ", "); j != [] && IsDigit(j[0]) && '[' !in j
  {
    assert forall i :: 0 <= i < |ys| ==> '[' !in ys[i] by {
      forall i | 0 <= i < |ys| ensures '[' !in ys[i] {
        assert forall k :: 0 <= k < 4 ==> ys[i][k] != '[';
      }
    }
    JoinWithout(ys, ", ", '[');
    if |ys| > 1 {
      assert Join(ys, ", ") == ys[0] + (", " + Join(ys[1..], ", "));
    }
  }

  /** Text that starts with a digit is not one of the placeholders. */
  lemma DigitFirstNotPlaceholder(text: string)
    requires text != [] && IsDigit(text[0])
    ensures !IsMissingOrDash(text)
  {
    StripHead(text);
    var l := Lower(Strip(text));
    assert l[0] == text[0];
    assert l != "n/a" && l != "na" && l != "-" by {
      assert "n/a"[0] == 'n' && "na"[0] == 'n' && "-"[0] == '-';
    }
  }

  /** Release text that is already a list of distinct years comes back unchanged. */
  lemma ExtractYearsRoundTrip(ys: seq<string>)
    requires ys != []
    requires Distinct(ys)
    requires forall i :: 0 <= i < |ys| ==> IsYear(ys[i])
    ensures ExtractYearsFromRelease(Join(ys, ", ")) == Join(ys, ", ")
  {
    var text := Join(ys, ", ");
    JoinYearsShape(ys);
    DigitFirstNotPlaceholder(text);
    NoOpenBracketNoRefs(text);
    NoRefsFixed(text);
    FindYearsJoin(ys);
    DedupeDistinct(ys);
    assert ReleaseYears(text) == ys;
  }
}
