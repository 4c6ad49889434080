/**
 * Conditional list comprehensions `[x for x in xs if p(x)]` and the order-preserving
 * subsequences they produce.
 */
module Lists {

  /** `[x for x in xs if p(x)]` */
  function Keep<T>(xs: seq<T>, p: T -> bool): (r: seq<T>)
    ensures |r| <= |xs|
  {
    if xs == [] then []
    else
      var rest := Keep(xs[..|xs| - 1], p);
      if p(xs[|xs| - 1]) then rest + [xs[|xs| - 1]] else rest
  }

  /** Positions, in increasing order, of the elements `p` keeps. */
  function KeepIndex<T>(xs: seq<T>, p: T -> bool): (ix: seq<int>)
  {
    if xs == [] then []
    else
      var rest := KeepIndex(xs[..|xs| - 1], p);
      if p(xs[|xs| - 1]) then rest + [|xs| - 1] else rest
  }

  /** `ix` picks `xs` out of `ys`, position by position, at strictly increasing positions. */
  ghost predicate Embeds<T>(xs: seq<T>, ys: seq<T>, ix: seq<int>)
  {
    && |ix| == |xs|
    && (forall i :: 0 <= i < |ix| ==> 0 <= ix[i] < |ys| && xs[i] == ys[ix[i]])
    && (forall i, j :: 0 <= i < j < |ix| ==> ix[i] < ix[j])
  }

  /** `xs` is `ys` with some elements left out and the rest in their order. */
  ghost predicate IsSubsequence<T>(xs: seq<T>, ys: seq<T>)
  {
    exists ix :: Embeds(xs, ys, ix)
  }

  /** An element is kept exactly when it is in the list and passes the test. */
  lemma {:induction false} KeepMembers<T>(xs: seq<T>, p: T -> bool)
    ensures forall x :: x in Keep(xs, p) <==> x in xs && p(x)
  {
    if xs != [] {
      var init := xs[..|xs| - 1];
      KeepMembers(init, p);
      assert xs == init + [xs[|xs| - 1]];
    }
  }

  /** The kept elements sit in the list at the positions `KeepIndex` names. */
  lemma {:induction false} KeepEmbeds<T>(xs: seq<T>, p: T -> bool)
    ensures Embeds(Keep(xs, p), xs, KeepIndex(xs, p))
  {
    if xs != [] {
      var init := xs[..|xs| - 1];
      KeepEmbeds(init, p);
      var r, ix := Keep(init, p), KeepIndex(init, p);
      forall i | 0 <= i < |ix| ensures 0 <= ix[i] < |xs| && r[i] == xs[ix[i]] {
        assert init[ix[i]] == xs[ix[i]];
      }
    }
  }

  /** A comprehension with a condition keeps its elements in their order. */
  lemma KeepSubsequence<T>(xs: seq<T>, p: T -> bool)
    ensures IsSubsequence(Keep(xs, p), xs)
  {
    KeepEmbeds(xs, p);
  }

  lemma SubsequenceRefl<T>(xs: seq<T>)
    ensures IsSubsequence(xs, xs)
  {
    var ix := seq(|xs|, i requires 0 <= i < |xs| => i);
    assert Embeds(xs, xs, ix);
  }

  lemma SubsequenceTrans<T>(a: seq<T>, b: seq<T>, c: seq<T>)
    requires IsSubsequence(a, b) && IsSubsequence(b, c)
    ensures IsSubsequence(a, c)
  {
    var f :| Embeds(a, b, f);
    var g :| Embeds(b, c, g);
    var h := seq(|f|, i requires 0 <= i < |f| => g[f[i]]);
    assert Embeds(a, c, h);
  }

  /** A prefix is a subsequence. */
  lemma PrefixSubsequence<T>(xs: seq<T>, n: nat)
    requires n <= |xs|
    ensures IsSubsequence(xs[..n], xs)
  {
    var ix := seq(n, i requires 0 <= i < n => i);
    assert Embeds(xs[..n], xs, ix);
  }

  lemma SubsequenceMembers<T>(a: seq<T>, b: seq<T>)
    requires IsSubsequence(a, b)
    ensures forall x :: x in a ==> x in b
  {
    var f :| Embeds(a, b, f);
    forall x | x in a ensures x in b {
      var i :| 0 <= i < |a| && a[i] == x;
      assert b[f[i]] == x;
    }
  }
}
