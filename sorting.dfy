/**
 * Python's `sorted(xs, key=..., reverse=...)` and `list.sort`: a stable sort. Both directions are
 * expressed through a strict "goes strictly before" relation `lt`; for `reverse=True` on a key `k`
 * that relation is `k(a) > k(b)`, which keeps equal-key elements in their input order just as
 * Python does.
 */
module Sorting {

  /** `lt` is irreflexive, transitive and negatively transitive: "incomparable" is an equivalence. */
  ghost predicate StrictWeakOrder<T(!new)>(lt: (T, T) -> bool)
  {
    && (forall a :: !lt(a, a))
    && (forall a, b, c :: lt(a, b) && lt(b, c) ==> lt(a, c))
    && (forall a, b, c :: lt(a, c) ==> lt(a, b) || lt(b, c))
  }

  /** No element goes strictly before one that precedes it. */
  ghost predicate Sorted<T>(s: seq<T>, lt: (T, T) -> bool)
  {
    forall i, j :: 0 <= i < j < |s| ==> !lt(s[j], s[i])
  }

  /** Places `x` in front of the first element it goes strictly before. */
  function Insert<T>(x: T, s: seq<T>, lt: (T, T) -> bool): (r: seq<T>)
    ensures multiset(r) == multiset(s) + multiset{x}
    ensures |r| == |s| + 1
  {
    if s == [] then [x]
    else if lt(x, s[0]) then [x] + s
    else
      assert s == [s[0]] + s[1..];
      [s[0]] + Insert(x, s[1..], lt)
  }

  /** Stable insertion sort: later elements are inserted after earlier equal ones. */
  function SortBy<T>(xs: seq<T>, lt: (T, T) -> bool): (r: seq<T>)
    ensures multiset(r) == multiset(xs)
    ensures |r| == |xs|
  {
    if xs == [] then []
    else
      assert xs == xs[..|xs| - 1] + [xs[|xs| - 1]];
      Insert(xs[|xs| - 1], SortBy(xs[..|xs| - 1], lt), lt)
  }

  lemma {:induction false} InsertSorted<T(!new)>(x: T, s: seq<T>, lt: (T, T) -> bool)
    requires StrictWeakOrder(lt)
    requires Sorted(s, lt)
    ensures Sorted(Insert(x, s, lt), lt)
  {
    if s != [] && !lt(x, s[0]) {
      var t := Insert(x, s[1..], lt);
      InsertSorted(x, s[1..], lt);
      forall j | 0 <= j < |t| ensures !lt(t[j], s[0]) {
        assert t[j] in multiset(t);
        assert t[j] == x || t[j] in s[1..];
      }
    }
  }

  /** The sort's output is ordered, whatever order its input had. */
  lemma {:induction false} SortBySorted<T(!new)>(xs: seq<T>, lt: (T, T) -> bool)
    requires StrictWeakOrder(lt)
    ensures Sorted(SortBy(xs, lt), lt)
  {
    if xs != [] {
      SortBySorted(xs[..|xs| - 1], lt);
      InsertSorted(xs[|xs| - 1], SortBy(xs[..|xs| - 1], lt), lt);
    }
  }

  /**
   * Inserting `x` at a gap `j` such that `x` goes before none of the elements in front of the gap
   * and strictly before the element after it is exactly what Insert does.
   */
  lemma {:induction false} InsertAt<T>(x: T, s: seq<T>, lt: (T, T) -> bool, j: nat)
    requires j <= |s|
    requires forall i :: 0 <= i < j ==> !lt(x, s[i])
    requires j < |s| ==> lt(x, s[j])
    ensures Insert(x, s, lt) == s[..j] + [x] + s[j..]
  {
    if j > 0 {
      var tail := s[1..];
      GapInTail(x, s, lt, j);
      InsertAt(x, tail, lt, j - 1);
      assert Insert(x, s, lt) == [s[0]] + Insert(x, tail, lt);
      ConsSplit(s, x, j);
    } else if s != [] {
      assert Insert(x, s, lt) == [x] + s;
      assert s[..0] + [x] + s[0..] == [x] + s;
    }
  }

  lemma GapInTail<T>(x: T, s: seq<T>, lt: (T, T) -> bool, j: nat)
    requires 0 < j <= |s|
    requires forall i :: 0 <= i < j ==> !lt(x, s[i])
    requires j < |s| ==> lt(x, s[j])
    ensures !lt(x, s[0])
    ensures forall i :: 0 <= i < j - 1 ==> !lt(x, s[1..][i])
    ensures j - 1 < |s[1..]| ==> lt(x, s[1..][j - 1])
  {
    assert forall i :: 0 <= i < j - 1 ==> s[1..][i] == s[i + 1];
  }

  lemma ConsSplit<T>(s: seq<T>, x: T, j: nat)
    requires 0 < j <= |s|
    ensures [s[0]] + (s[1..][..j - 1] + [x] + s[1..][j - 1..]) == s[..j] + [x] + s[j..]
  {
    assert [s[0]] + s[1..][..j - 1] == s[..j];
    assert s[1..][j - 1..] == s[j..];
  }

  /** In a sorted list, an element `x` does not go before cannot be preceded by one it does go before. */
  lemma NotBeforePrefix<T(!new)>(x: T, s: seq<T>, lt: (T, T) -> bool, k: nat)
    requires StrictWeakOrder(lt)
    requires Sorted(s, lt)
    requires k < |s| && !lt(x, s[k])
    ensures forall i :: 0 <= i <= k ==> !lt(x, s[i])
  {
    forall i | 0 <= i < k ensures !lt(x, s[i]) {
      assert !lt(s[k], s[i]);
    }
  }

  /** A sorted list that is a permutation of a distinct list is distinct. */
  lemma PermutationDistinct<T>(a: seq<T>, b: seq<T>)
    requires multiset(a) == multiset(b)
    requires forall i, j :: 0 <= i < j < |a| ==> a[i] != a[j]
    ensures forall i, j :: 0 <= i < j < |b| ==> b[i] != b[j]
  {
    forall i, j | 0 <= i < j < |b| ensures b[i] != b[j] {
      if b[i] == b[j] {
        MultiplicityTwo(b, i, j);
        DistinctMultiplicity(a, b[i]);
      }
    }
  }

  lemma MultiplicityTwo<T>(s: seq<T>, i: nat, j: nat)
    requires i < j < |s| && s[i] == s[j]
    ensures multiset(s)[s[i]] >= 2
  {
    assert s == s[..j] + [s[j]] + s[j + 1..];
    assert s[i] in s[..j];
    assert multiset(s) == multiset(s[..j]) + multiset{s[j]} + multiset(s[j + 1..]);
  }

  lemma {:induction false} DistinctMultiplicity<T>(s: seq<T>, x: T)
    requires forall i, j :: 0 <= i < j < |s| ==> s[i] != s[j]
    ensures multiset(s)[x] <= 1
  {
    if s != [] {
      var init := s[..|s| - 1];
      assert s == init + [s[|s| - 1]];
      DistinctMultiplicity(init, x);
      if x == s[|s| - 1] {
        assert x !in init;
      }
    }
  }

  /**
   * `list.sort` on an array: stable insertion sort in place, which ends with exactly the list
   * SortBy computes.
   */
  method SortInPlace<T(!new)>(a: array<T>, lt: (T, T) -> bool)
    requires StrictWeakOrder(lt)
    modifies a
    ensures a[..] == SortBy(old(a[..]), lt)
  {
    ghost var orig := a[..];
    var i := 0;
    while i < a.Length
      invariant 0 <= i <= a.Length
      invariant a[..i] == SortBy(orig[..i], lt)
      invariant forall k :: i <= k < a.Length ==> a[k] == orig[k]
    {
      PrefixReady(orig, i, lt);
      InsertLast(a, i, lt);
      SortByStep(orig, i, lt);
      i := i + 1;
    }
    assert a[..] == a[..a.Length];
    assert orig[..a.Length] == orig;
  }

  /**
   * In a sorted list, the elements `x` does not go strictly before form a prefix: what a backward
   * scan for the insertion gap relies on.
   */
  ghost predicate NotBeforeClosed<T>(x: T, s: seq<T>, lt: (T, T) -> bool)
  {
    forall k, m :: 0 <= m <= k < |s| && !lt(x, s[k]) ==> !lt(x, s[m])
  }

  lemma SortedPrefixClosed<T(!new)>(x: T, s: seq<T>, lt: (T, T) -> bool)
    requires StrictWeakOrder(lt) && Sorted(s, lt)
    ensures NotBeforeClosed(x, s, lt)
  {
    forall k, m | 0 <= m <= k < |s| && !lt(x, s[k]) ensures !lt(x, s[m]) {
      NotBeforePrefix(x, s, lt, k);
    }
  }

  lemma PrefixReady<T(!new)>(orig: seq<T>, i: nat, lt: (T, T) -> bool)
    requires StrictWeakOrder(lt) && i < |orig|
    ensures NotBeforeClosed(orig[i], SortBy(orig[..i], lt), lt)
  {
    SortBySorted(orig[..i], lt);
    SortedPrefixClosed(orig[i], SortBy(orig[..i], lt), lt);
  }

  lemma SortByStep<T>(xs: seq<T>, i: nat, lt: (T, T) -> bool)
    requires i < |xs|
    ensures SortBy(xs[..i + 1], lt) == Insert(xs[i], SortBy(xs[..i], lt), lt)
  {
    assert xs[..i + 1][..i] == xs[..i];
  }

  /** Moves `a[i]` back into the prefix `a[..i]`, past every element it goes strictly before. */
  method InsertLast<T>(a: array<T>, i: nat, lt: (T, T) -> bool)
    requires i < a.Length && NotBeforeClosed(a[i], a[..i], lt)
    modifies a
    ensures a[..i + 1] == Insert(old(a[i]), old(a[..i]), lt)
    ensures forall k :: i < k < a.Length ==> a[k] == old(a[k])
  {
    ghost var s := a[..i];
    var x := a[i];
    var j := i;
    while j > 0 && lt(x, a[j - 1])
      invariant 0 <= j <= i
      invariant forall k :: 0 <= k < j ==> a[k] == s[k]
      invariant forall k :: j < k <= i ==> a[k] == s[k - 1]
      invariant forall k :: i < k < a.Length ==> a[k] == old(a[k])
      invariant forall k :: j <= k < i ==> lt(x, s[k])
    {
      a[j] := a[j - 1];
      j := j - 1;
    }
    a[j] := x;
    InsertedAtGap(a[..i + 1], s, x, lt, j);
  }

  /** A list that is `s` with `x` placed at the gap a backward scan stops at is `Insert(x, s)`. */
  lemma InsertedAtGap<T>(b: seq<T>, s: seq<T>, x: T, lt: (T, T) -> bool, j: nat)
    requires NotBeforeClosed(x, s, lt)
    requires |b| == |s| + 1 && j <= |s|
    requires forall k :: 0 <= k < j ==> b[k] == s[k]
    requires b[j] == x
    requires forall k :: j < k < |b| ==> b[k] == s[k - 1]
    requires forall k :: j <= k < |s| ==> lt(x, s[k])
    requires j > 0 ==> !lt(x, b[j - 1])
    ensures b == Insert(x, s, lt)
  {
    GapClosed(b, s, x, lt, j);
    InsertAt(x, s, lt, j);
    PlacedAt(b, s, x, j);
  }

  /** Below a gap whose left neighbour `x` does not go before, `x` goes before nothing. */
  lemma GapClosed<T>(b: seq<T>, s: seq<T>, x: T, lt: (T, T) -> bool, j: nat)
    requires NotBeforeClosed(x, s, lt)
    requires |b| == |s| + 1 && j <= |s|
    requires forall k :: 0 <= k < j ==> b[k] == s[k]
    requires j > 0 ==> !lt(x, b[j - 1])
    ensures forall m :: 0 <= m < j ==> !lt(x, s[m])
  {
    if j > 0 {
      assert !lt(x, s[j - 1]);
    }
  }

  /** A list that agrees with `s` around position `j` and holds `x` there is `s` with `x` inserted at `j`. */
  lemma PlacedAt<T>(b: seq<T>, s: seq<T>, x: T, j: nat)
    requires |b| == |s| + 1 && j <= |s|
    requires forall k :: 0 <= k < j ==> b[k] == s[k]
    requires b[j] == x
    requires forall k :: j < k < |b| ==> b[k] == s[k - 1]
    ensures b == s[..j] + [x] + s[j..]
  {
    var t := s[..j] + [x] + s[j..];
    forall k | 0 <= k < |b| ensures b[k] == t[k] {
      if k < j {
        assert t[k] == s[k];
      } else if k > j {
        assert t[k] == s[k - 1];
      }
    }
  }

  // ---------------------------------------------------------------------------
  // Stability
  // ---------------------------------------------------------------------------

  /** Neither goes strictly before the other. */
  predicate Tied<T>(a: T, b: T, lt: (T, T) -> bool)
  {
    !lt(a, b) && !lt(b, a)
  }

  /** `[x]` when `x` is tied with `a`, else nothing. */
  function TieOf<T>(x: T, a: T, lt: (T, T) -> bool): seq<T>
  {
    if Tied(x, a, lt) then [x] else []
  }

  /** The elements of `s` tied with `a`, in their order in `s`. */
  function TiesWith<T>(s: seq<T>, a: T, lt: (T, T) -> bool): seq<T>
  {
    if s == [] then [] else TieOf(s[0], a, lt) + TiesWith(s[1..], a, lt)
  }

  lemma TiesWithCons<T>(x: T, s: seq<T>, a: T, lt: (T, T) -> bool)
    ensures TiesWith([x] + s, a, lt) == TieOf(x, a, lt) + TiesWith(s, a, lt)
  {
    assert ([x] + s)[1..] == s;
  }

  lemma {:induction false} TiesWithAppend<T>(s: seq<T>, t: seq<T>, a: T, lt: (T, T) -> bool)
    ensures TiesWith(s + t, a, lt) == TiesWith(s, a, lt) + TiesWith(t, a, lt)
  {
    if s == [] {
      assert s + t == t;
    } else {
      assert (s + t)[1..] == s[1..] + t;
      TiesWithAppend(s[1..], t, a, lt);
    }
  }

  lemma LastSplit<T>(xs: seq<T>)
    requires xs != []
    ensures xs == xs[..|xs| - 1] + [xs[|xs| - 1]]
  {
  }

  /** The tail of a sorted list is sorted. */
  lemma SortedTail<T>(s: seq<T>, lt: (T, T) -> bool)
    requires Sorted(s, lt) && s != []
    ensures Sorted(s[1..], lt)
  {
    var t := s[1..];
    forall i, j | 0 <= i < j < |t| ensures !lt(t[j], t[i]) {
      assert t[j] == s[j + 1] && t[i] == s[i + 1];
    }
  }

  /** In a sorted list that starts strictly after `a`, nothing is tied with `a`. */
  lemma {:induction false} NoTiesAfter<T(!new)>(s: seq<T>, a: T, lt: (T, T) -> bool)
    requires StrictWeakOrder(lt) && Sorted(s, lt)
    requires s != [] ==> lt(a, s[0])
    ensures TiesWith(s, a, lt) == []
  {
    if s != [] {
      var t := s[1..];
      if t != [] {
        assert !lt(t[0], s[0]);
      }
      SortedTail(s, lt);
      NoTiesAfter(t, a, lt);
    }
  }

  /** Inserting `x` into a sorted list puts it after every element it is tied with. */
  lemma {:induction false} InsertTies<T(!new)>(x: T, s: seq<T>, a: T, lt: (T, T) -> bool)
    requires StrictWeakOrder(lt) && Sorted(s, lt)
    ensures TiesWith(Insert(x, s, lt), a, lt) == TiesWith(s, a, lt) + TieOf(x, a, lt)
  {
    if s == [] {
      TiesWithCons(x, [], a, lt);
      assert Insert(x, s, lt) == [x] + [];
    } else if lt(x, s[0]) {
      assert Insert(x, s, lt) == [x] + s;
      TiesWithCons(x, s, a, lt);
      if Tied(x, a, lt) {
        NoTiesAfter(s, a, lt);
      }
    } else {
      var t := s[1..];
      assert s == [s[0]] + t;
      var u := Insert(x, t, lt);
      assert Insert(x, s, lt) == [s[0]] + u;
      SortedTail(s, lt);
      InsertTies(x, t, a, lt);
      TiesWithCons(s[0], u, a, lt);
      TiesWithCons(s[0], t, a, lt);
      var h := TieOf(s[0], a, lt);
      assert TiesWith(s, a, lt) == h + TiesWith(t, a, lt);
      assert TiesWith(Insert(x, s, lt), a, lt) == h + (TiesWith(t, a, lt) + TieOf(x, a, lt));
    }
  }

  /**
   * `sorted` is stable: the elements tied with any `a` come out in the order they went in.
   */
  lemma {:induction false} SortByStable<T(!new)>(xs: seq<T>, a: T, lt: (T, T) -> bool)
    requires StrictWeakOrder(lt)
    ensures TiesWith(SortBy(xs, lt), a, lt) == TiesWith(xs, a, lt)
  {
    if xs != [] {
      var init := xs[..|xs| - 1];
      var x := xs[|xs| - 1];
      LastSplit(xs);
      var sorted := SortBy(init, lt);
      assert SortBy(xs, lt) == Insert(x, sorted, lt);
      SortByStable(init, a, lt);
      SortBySorted(init, lt);
      InsertTies(x, sorted, a, lt);
      TiesWithAppend(init, [x], a, lt);
      TiesWithCons(x, [], a, lt);
      assert [x] + [] == [x];
    }
  }
}
