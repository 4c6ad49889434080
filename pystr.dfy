/**
 * The Python built-ins the recommender and the scrapers lean on, restricted to ASCII:
 * `str.strip`, `str.lower`, `in` on strings, `str.split(sep)`, `sep.join`, list slices,
 * `float()` and `int()` on decimal text, `dict.fromkeys` de-duplication and string ordering.
 */
module PyStr {
  import opened Wrappers

  /**
   * Characters `str.isspace` accepts in ASCII: space, tab, LF, VT, FF, CR and the four
   * information separators FS, GS, RS and US (0x1C to 0x1F).
   */
  predicate IsSpace(c: char)
  {
    c == ' ' || '\t' <= c <= '\r' || '\U{1C}' <= c <= '\U{1F}'
  }

  predicate IsDigit(c: char)
  {
    '0' <= c <= '9'
  }

  predicate AllDigits(s: string)
  {
    forall i :: 0 <= i < |s| ==> IsDigit(s[i])
  }

  ghost predicate Distinct<T>(s: seq<T>)
  {
    forall i, j :: 0 <= i < j < |s| ==> s[i] != s[j]
  }

  function Min(a: int, b: int): int { if a <= b then a else b }

  function Max(a: int, b: int): int { if a >= b then a else b }

  // ---------------------------------------------------------------------------
  // strip / lower / in
  // ---------------------------------------------------------------------------

  /** `s.lstrip()` */
  function TrimLeft(s: string): (r: string)
    ensures |r| <= |s| && r == s[|s| - |r|..]
    ensures r == [] || !IsSpace(r[0])
    ensures forall k :: 0 <= k < |s| - |r| ==> IsSpace(s[k])
  {
    if s != [] && IsSpace(s[0]) then TrimLeft(s[1..]) else s
  }

  /** `s.rstrip()` */
  function TrimRight(s: string): (r: string)
    ensures |r| <= |s| && r == s[..|r|]
    ensures r == [] || !IsSpace(r[|r| - 1])
    ensures forall k :: |r| <= k < |s| ==> IsSpace(s[k])
  {
    if s != [] && IsSpace(s[|s| - 1]) then TrimRight(s[..|s| - 1]) else s
  }

  /** No white space at either end. */
  predicate Trimmed(s: string)
  {
    s == [] || (!IsSpace(s[0]) && !IsSpace(s[|s| - 1]))
  }

  /** `s.strip()`: a piece of `s` with no white space at either end. */
  function Strip(s: string): (r: string)
    ensures Trimmed(r)
  {
    TrimRight(TrimLeft(s))
  }

  /** `s.strip()` is empty exactly when `s` is all white space. */
  lemma StripBlank(s: string)
    ensures (Strip(s) == []) == (forall k :: 0 <= k < |s| ==> IsSpace(s[k]))
  {
    var l := TrimLeft(s);
    var r := TrimRight(l);
    if r != [] {
      assert r[0] == l[0] == s[|s| - |l|];
    }
  }

  /** `s.strip()` only keeps characters of `s`. */
  lemma StripChars(s: string)
    ensures forall c :: c in Strip(s) ==> c in s
  {
    StripIsSlice(s);
    SliceChars(s, LeadingSpace(s), LeadingSpace(s) + |Strip(s)|);
  }

  /** The length of the leading white space of `s`. */
  function LeadingSpace(s: string): (n: nat)
    ensures n <= |s|
  {
    |s| - |TrimLeft(s)|
  }

  /** `s.strip()` is the slice of `s` that starts after its leading white space. */
  lemma StripIsSlice(s: string)
    ensures LeadingSpace(s) + |Strip(s)| <= |s|
    ensures Strip(s) == s[LeadingSpace(s)..LeadingSpace(s) + |Strip(s)|]
  {
    var l := TrimLeft(s);
    var r := TrimRight(l);
    assert Strip(s) == r;
    var off := |s| - |l|;
    assert l == s[off..];
    assert r == l[..|r|];
    assert l[..|r|] == s[off..off + |r|];
  }

  /** A string that does not start with white space keeps its first character under `strip()`. */
  lemma StripHead(s: string)
    requires s != [] && !IsSpace(s[0])
    ensures Strip(s) != [] && Strip(s)[0] == s[0]
  {
    assert TrimLeft(s) == s;
  }

  lemma SliceChars(s: string, i: nat, j: nat)
    requires i <= j <= |s|
    ensures forall c :: c in s[i..j] ==> c in s
  {
    forall c | c in s[i..j] ensures c in s {
      var k :| i <= k < j && s[k] == c;
    }
  }

  function LowerChar(c: char): char
  {
    if 'A' <= c <= 'Z' then (c as int + 32) as char else c
  }

  /** `s.lower()` on ASCII letters. */
  function Lower(s: string): (r: string)
    ensures |r| == |s|
    ensures forall i :: 0 <= i < |s| ==> r[i] == LowerChar(s[i])
  {
    seq(|s|, i requires 0 <= i < |s| => LowerChar(s[i]))
  }

  /** Lower-casing is idempotent. */
  lemma LowerLower(s: string)
    ensures Lower(Lower(s)) == Lower(s)
  {
  }

  /** Python's `needle in hay` on strings; the empty string occurs everywhere. */
  predicate Contains(hay: string, needle: string)
  {
    needle <= hay || (hay != [] && Contains(hay[1..], needle))
  }

  /** `needle.lower() in hay.lower()` */
  predicate ContainsIgnoreCase(hay: string, needle: string)
  {
    Contains(Lower(hay), Lower(needle))
  }

  lemma {:induction false} ContainsSuffix(hay: string, k: nat, needle: string)
    requires k <= |hay|
    requires Contains(hay[k..], needle)
    ensures Contains(hay, needle)
  {
    if k > 0 {
      assert hay[1..][k - 1..] == hay[k..];
      ContainsSuffix(hay[1..], k - 1, needle);
    }
  }

  // ---------------------------------------------------------------------------
  // split / join
  // ---------------------------------------------------------------------------

  /** `sep.join(parts)` */
  function Join(parts: seq<string>, sep: string): string
  {
    if parts == [] then []
    else if |parts| == 1 then parts[0]
    else parts[0] + sep + Join(parts[1..], sep)
  }

  /** A character that occurs neither in the separator nor in any part does not occur in the join. */
  lemma {:induction false} JoinWithout(parts: seq<string>, sep: string, c: char)
    requires c !in sep
    requires forall i :: 0 <= i < |parts| ==> c !in parts[i]
    ensures c !in Join(parts, sep)
  {
    if |parts| > 1 {
      JoinWithout(parts[1..], sep, c);
    }
  }

  /** `s.split(sep)` for a one-character separator: always at least one field, and joining the fields back gives `s`. */
  function Split(s: string, sep: char): (parts: seq<string>)
    ensures |parts| >= 1
    ensures forall i :: 0 <= i < |parts| ==> sep !in parts[i]
    ensures Join(parts, [sep]) == s
  {
    if s == [] then [[]]
    else
      var rest := Split(s[1..], sep);
      if s[0] == sep then
        assert Join([[]] + rest, [sep]) == [sep] + Join(rest, [sep]);
        [[]] + rest
      else
        var parts := [[s[0]] + rest[0]] + rest[1..];
        assert parts[1..] == rest[1..];
        assert Join(parts, [sep]) == [s[0]] + Join(rest, [sep]);
        parts
  }

  /** A string without the separator splits into itself alone. */
  lemma {:induction false} SplitNoSep(s: string, sep: char)
    requires sep !in s
    ensures Split(s, sep) == [s]
  {
    if s != [] {
      SplitNoSep(s[1..], sep);
      assert [s[0]] + s[1..] == s;
    }
  }

  /** A character other than the separator joins the first field. */
  lemma SplitCons(c: char, v: string, sep: char)
    requires c != sep
    ensures Split([c] + v, sep) == [[c] + Split(v, sep)[0]] + Split(v, sep)[1..]
  {
    assert ([c] + v)[1..] == v;
  }

  /** A separator-free field followed by the separator splits off as the first field. */
  lemma {:induction false} SplitFirstField(a: string, sep: char, t: string)
    requires sep !in a
    ensures Split(a + [sep] + t, sep) == [a] + Split(t, sep)
  {
    if a == [] {
      assert a + [sep] + t == [sep] + t;
      assert ([sep] + t)[1..] == t;
    } else {
      var v := a[1..] + [sep] + t;
      SplitFirstField(a[1..], sep, t);
      SplitCons(a[0], v, sep);
      assert [a[0]] + v == a + [sep] + t;
      assert [a[0]] + a[1..] == a;
    }
  }

  /**
   * Splitting a join of separator-free fields gives the fields back, so that the fields of
   * `s.split(sep)` are the only separator-free fields that join to `s`.
   */
  lemma {:induction false} SplitJoin(parts: seq<string>, sep: char)
    requires |parts| >= 1
    requires forall i :: 0 <= i < |parts| ==> sep !in parts[i]
    ensures Split(Join(parts, [sep]), sep) == parts
  {
    if |parts| == 1 {
      SplitNoSep(parts[0], sep);
    } else {
      SplitJoin(parts[1..], sep);
      SplitFirstField(parts[0], sep, Join(parts[1..], [sep]));
      assert parts == [parts[0]] + parts[1..];
    }
  }

  /** `[p.strip() for p in parts]` */
  function StripAll(parts: seq<string>): (r: seq<string>)
    ensures |r| == |parts|
    ensures forall i :: 0 <= i < |r| ==> r[i] == Strip(parts[i])
  {
    seq(|parts|, i requires 0 <= i < |parts| => Strip(parts[i]))
  }

  /** `[p.lower() for p in parts]` */
  function LowerAll(parts: seq<string>): (r: seq<string>)
    ensures |r| == |parts|
    ensures forall i :: 0 <= i < |r| ==> r[i] == Lower(parts[i])
  {
    seq(|parts|, i requires 0 <= i < |parts| => Lower(parts[i]))
  }

  // ---------------------------------------------------------------------------
  // list slices and de-duplication
  // ---------------------------------------------------------------------------

  /** `xs[:n]`, where a negative `n` counts from the end. */
  function Take<T>(xs: seq<T>, n: int): (r: seq<T>)
    ensures |r| == if n >= 0 then Min(n, |xs|) else Max(0, |xs| + n)
    ensures r == xs[..|r|]
  {
    if n >= 0 then (if n <= |xs| then xs[..n] else xs)
    else if |xs| + n >= 0 then xs[..|xs| + n]
    else []
  }

  /** `xs[-n:]` for a positive `n`. */
  function TakeLast<T>(xs: seq<T>, n: nat): (r: seq<T>)
    ensures |r| == Min(n, |xs|)
    ensures r == xs[|xs| - |r|..]
  {
    if |xs| <= n then xs else xs[|xs| - n..]
  }

  /** Index of the first occurrence of `x` in `xs`. */
  function FirstIndex<T(==)>(xs: seq<T>, x: T): (i: nat)
    requires x in xs
    ensures i < |xs| && xs[i] == x && x !in xs[..i]
  {
    if xs[0] == x then 0 else 1 + FirstIndex(xs[1..], x)
  }

  lemma {:induction false} FirstIndexAppend<T>(xs: seq<T>, y: T, x: T)
    requires x in xs
    ensures FirstIndex(xs + [y], x) == FirstIndex(xs, x)
  {
    if xs[0] != x {
      assert (xs + [y])[1..] == xs[1..] + [y];
      FirstIndexAppend(xs[1..], y, x);
    }
  }

  /** `list(dict.fromkeys(xs))`: each value once, at its first occurrence. */
  function Dedupe<T(==)>(xs: seq<T>): (r: seq<T>)
    ensures Distinct(r)
    ensures forall i :: 0 <= i < |r| ==> r[i] in xs
    ensures forall i :: 0 <= i < |xs| ==> xs[i] in r
    ensures |r| <= |xs|
  {
    if xs == [] then []
    else
      var r := Dedupe(xs[..|xs| - 1]);
      var y := xs[|xs| - 1];
      assert xs == xs[..|xs| - 1] + [y];
      assert forall i :: 0 <= i < |xs| - 1 ==> xs[i] == xs[..|xs| - 1][i];
      if y in r then r else r + [y]
  }

  /** A list without repeats is its own de-duplication. */
  lemma {:induction false} DedupeDistinct<T>(xs: seq<T>)
    requires Distinct(xs)
    ensures Dedupe(xs) == xs
  {
    if xs != [] {
      var init := xs[..|xs| - 1];
      DedupeDistinct(init);
      assert xs[|xs| - 1] !in init;
      assert xs == init + [xs[|xs| - 1]];
    }
  }

  /** The values of `Dedupe(xs)` appear in the order of their first occurrence in `xs`. */
  lemma {:induction false} DedupeFirstOccurrenceOrder<T>(xs: seq<T>)
    ensures forall i, j :: 0 <= i < j < |Dedupe(xs)| ==>
      FirstIndex(xs, Dedupe(xs)[i]) < FirstIndex(xs, Dedupe(xs)[j])
  {
    if xs != [] {
      var init, y := xs[..|xs| - 1], xs[|xs| - 1];
      assert xs == init + [y];
      DedupeFirstOccurrenceOrder(init);
      var r := Dedupe(init);
      forall x | x in init ensures FirstIndex(xs, x) == FirstIndex(init, x) {
        FirstIndexAppend(init, y, x);
      }
      if y !in r {
        assert y !in init;
        assert FirstIndex(xs, y) == |init|;
      }
    }
  }

  // ---------------------------------------------------------------------------
  // float() and int() on decimal text
  // ---------------------------------------------------------------------------

  function DigitsValue(s: string): nat
    requires AllDigits(s)
  {
    if s == [] then 0 else 10 * DigitsValue(s[..|s| - 1]) + (s[|s| - 1] as int - '0' as int)
  }

  function Pow10(n: nat): (r: nat)
    ensures r >= 1
  {
    if n == 0 then 1 else 10 * Pow10(n - 1)
  }

  /** Index of the first `c` in `s`, or `|s|`. */
  function IndexOfChar(s: string, c: char): (i: nat)
    ensures i <= |s|
    ensures c !in s[..i]
    ensures i < |s| ==> s[i] == c
  {
    if s == [] then 0 else if s[0] == c then 0 else 1 + IndexOfChar(s[1..], c)
  }

  /** `digits[.digits]` with at least one digit in all. */
  function ParseUnsignedDecimal(s: string): Option<real>
  {
    var dot := IndexOfChar(s, '.');
    var whole := s[..dot];
    var frac := if dot < |s| then s[dot + 1..] else [];
    if AllDigits(whole) && AllDigits(frac) && |whole| + |frac| > 0 then
      Some(DigitsValue(whole) as real + DigitsValue(frac) as real / Pow10(|frac|) as real)
    else None
  }

  /** `float(s)` on decimal text: surrounding white space and a sign are accepted. */
  function ParseFloat(s: string): Option<real>
  {
    var t := Strip(s);
    if t != [] && (t[0] == '-' || t[0] == '+') then
      match ParseUnsignedDecimal(t[1..])
      case None => None
      case Some(v) => Some(if t[0] == '-' then -v else v)
    else ParseUnsignedDecimal(t)
  }

  /** `int(s)`: surrounding white space, a sign, then at least one digit. */
  function ParseInt(s: string): Option<int>
  {
    var t := Strip(s);
    var neg := t != [] && t[0] == '-';
    var body := if t != [] && (t[0] == '-' || t[0] == '+') then t[1..] else t;
    if body != [] && AllDigits(body) then Some(if neg then -(DigitsValue(body) as int) else DigitsValue(body))
    else None
  }

  /** `s.replace(c, "", 1)` */
  function RemoveFirst(s: string, c: char): string
  {
    if s == [] then [] else if s[0] == c then s[1..] else [s[0]] + RemoveFirst(s[1..], c)
  }

  /** `s.replace(".", "", 1).isdigit()`: digits with at most one dot. */
  predicate NumericLooking(s: string)
  {
    var t := RemoveFirst(s, '.');
    t != [] && AllDigits(t)
  }

  lemma {:induction false} RemoveFirstShape(s: string, c: char)
    ensures IndexOfChar(s, c) == |s| ==> RemoveFirst(s, c) == s
    ensures IndexOfChar(s, c) < |s| ==>
      RemoveFirst(s, c) == s[..IndexOfChar(s, c)] + s[IndexOfChar(s, c) + 1..]
  {
    if s != [] && s[0] != c {
      RemoveFirstShape(s[1..], c);
      if IndexOfChar(s, c) < |s| {
        assert s[1..][..IndexOfChar(s[1..], c)] == s[1..IndexOfChar(s, c)];
        assert s[1..][IndexOfChar(s[1..], c) + 1..] == s[IndexOfChar(s, c) + 1..];
      }
    }
  }

  /** Every value `sort_by` treats as numeric is one that `float()` accepts. */
  lemma NumericLookingParses(s: string)
    requires NumericLooking(s)
    ensures ParseFloat(s).Some?
  {
    DigitsAroundDot(s);
    UnsignedParses(s);
    assert !IsSpace(s[0]) && !IsSpace(s[|s| - 1]);
    StripIdentity(s);
  }

  /** Numeric-looking text is digits everywhere but at its first dot, and holds a digit. */
  lemma DigitsAroundDot(s: string)
    requires NumericLooking(s)
    ensures s != []
    ensures forall i :: 0 <= i < |s| && i != IndexOfChar(s, '.') ==> IsDigit(s[i])
    ensures IndexOfChar(s, '.') < |s| ==> |s| >= 2
  {
    var dot := IndexOfChar(s, '.');
    var t := RemoveFirst(s, '.');
    RemoveFirstShape(s, '.');
    forall i | 0 <= i < |s| && i != dot ensures IsDigit(s[i]) {
      if i < dot { assert t[i] == s[i]; } else { assert t[i - 1] == s[i]; }
    }
  }

  lemma UnsignedParses(s: string)
    requires s != []
    requires forall i :: 0 <= i < |s| && i != IndexOfChar(s, '.') ==> IsDigit(s[i])
    requires IndexOfChar(s, '.') < |s| ==> |s| >= 2
    ensures ParseUnsignedDecimal(s).Some?
  {
    var dot := IndexOfChar(s, '.');
    assert AllDigits(s[..dot]) by {
      forall i | 0 <= i < dot ensures IsDigit(s[..dot][i]) {
        assert s[..dot][i] == s[i];
      }
    }
    if dot < |s| {
      var frac := s[dot + 1..];
      assert AllDigits(frac) by {
        forall i | 0 <= i < |frac| ensures IsDigit(frac[i]) {
          assert frac[i] == s[dot + 1 + i];
        }
      }
    }
  }

  lemma StripIdentity(s: string)
    requires Trimmed(s)
    ensures Strip(s) == s
  {
  }

  // ---------------------------------------------------------------------------
  // string ordering
  // ---------------------------------------------------------------------------

  /** Python's `a < b` on strings: lexicographic by code point, a proper prefix first. */
  predicate LexLess(a: string, b: string)
  {
    if a == [] then b != []
    else if b == [] then false
    else if a[0] != b[0] then a[0] < b[0]
    else LexLess(a[1..], b[1..])
  }

  lemma {:induction false} LexLessIrreflexive(a: string)
    ensures !LexLess(a, a)
  {
    if a != [] { LexLessIrreflexive(a[1..]); }
  }

  lemma {:induction false} LexLessTransitive(a: string, b: string, c: string)
    requires LexLess(a, b) && LexLess(b, c)
    ensures LexLess(a, c)
  {
    if a != [] && b != [] && c != [] && a[0] == b[0] && b[0] == c[0] {
      LexLessTransitive(a[1..], b[1..], c[1..]);
    }
  }

  lemma {:induction false} LexLessTotal(a: string, b: string)
    requires a != b
    ensures LexLess(a, b) || LexLess(b, a)
  {
    if a != [] && b != [] && a[0] == b[0] {
      assert a == [a[0]] + a[1..] && b == [b[0]] + b[1..];
      LexLessTotal(a[1..], b[1..]);
    }
  }
}
