/**
 * A Python `dict[str, float]`: a value per key, and the keys in insertion order (which is what
 * `dict.items()` and `sorted(d.items(), ...)` see). Assigning to an existing key keeps its place.
 */
module OrderedDict {
  import opened PyStr

  datatype Dict = Dict(keys: seq<string>, vals: map<string, real>)

  /** Keys are distinct and are exactly the keys that carry a value. */
  ghost predicate Valid(d: Dict)
  {
    && Distinct(d.keys)
    && (forall k :: k in d.keys <==> k in d.vals)
  }

  function Empty(): (d: Dict)
    ensures Valid(d) && |d.keys| == 0
  {
    Dict([], map[])
  }

  /** `d.get(k, default)` */
  function Get(d: Dict, k: string, default: real): real
  {
    if k in d.vals then d.vals[k] else default
  }

  /** `d[k] = v` */
  function Set(d: Dict, k: string, v: real): (r: Dict)
    requires Valid(d)
    ensures Valid(r)
    ensures r.vals == d.vals[k := v]
    ensures k in d.vals ==> r.keys == d.keys
    ensures k !in d.vals ==> r.keys == d.keys + [k]
  {
    if k in d.vals then Dict(d.keys, d.vals[k := v])
    else Dict(d.keys + [k], d.vals[k := v])
  }

  /** `list(d.items())` */
  function Items(d: Dict): (r: seq<(string, real)>)
    requires Valid(d)
    ensures |r| == |d.keys|
    ensures forall i :: 0 <= i < |r| ==> r[i].0 == d.keys[i] && r[i].1 == d.vals[d.keys[i]]
  {
    seq(|d.keys|, i requires 0 <= i < |d.keys| => (d.keys[i], d.vals[d.keys[i]]))
  }

  /** The first components of a list of pairs. */
  function KeysOf(xs: seq<(string, real)>): (r: seq<string>)
    ensures |r| == |xs|
    ensures forall i :: 0 <= i < |r| ==> r[i] == xs[i].0
  {
    seq(|xs|, i requires 0 <= i < |xs| => xs[i].0)
  }

  /** `dict(xs)`: later pairs overwrite the value of an earlier equal key but not its place. */
  function FromItems(xs: seq<(string, real)>): (d: Dict)
    ensures Valid(d)
    ensures |d.keys| <= |xs|
  {
    if xs == [] then Empty()
    else
      var d := FromItems(xs[..|xs| - 1]);
      Set(d, xs[|xs| - 1].0, xs[|xs| - 1].1)
  }

  /** When the keys of `xs` are distinct, `dict(xs).items()` gives back `xs`. */
  lemma {:induction false} ItemsFromItems(xs: seq<(string, real)>)
    requires Distinct(KeysOf(xs))
    ensures Items(FromItems(xs)) == xs
  {
    if xs != [] {
      var n := |xs| - 1;
      var init, last := xs[..n], xs[n];
      assert KeysOf(init) == KeysOf(xs)[..n];
      ItemsFromItems(init);
      var d := FromItems(init);
      KeyNotInPrefix(xs, d);
      ItemsAppend(d, last.0, last.1);
      assert xs == init + [last];
    }
  }

  lemma KeyNotInPrefix(xs: seq<(string, real)>, d: Dict)
    requires xs != [] && Distinct(KeysOf(xs))
    requires Valid(d) && Items(d) == xs[..|xs| - 1]
    ensures xs[|xs| - 1].0 !in d.vals
  {
    var n := |xs| - 1;
    forall i | 0 <= i < n ensures d.keys[i] != xs[n].0 {
      assert d.keys[i] == Items(d)[i].0 == xs[i].0;
      assert KeysOf(xs)[i] != KeysOf(xs)[n];
    }
  }

  /** Assigning a new key appends one pair to the items. */
  lemma ItemsAppend(d: Dict, k: string, v: real)
    requires Valid(d) && k !in d.vals
    ensures Items(Set(d, k, v)) == Items(d) + [(k, v)]
  {
    var e := Set(d, k, v);
    forall i | 0 <= i < |d.keys| ensures Items(e)[i] == Items(d)[i] {
      assert d.keys[i] in d.vals;
    }
  }

  /** `dict(d.items())` is `d` again. */
  lemma FromItemsItems(d: Dict)
    requires Valid(d)
    ensures FromItems(Items(d)) == d
  {
    var xs := Items(d);
    assert KeysOf(xs) == d.keys;
    ItemsFromItems(xs);
    ItemsDetermine(FromItems(xs), d);
  }

  /** Two dictionaries with the same items are the same dictionary. */
  lemma ItemsDetermine(e: Dict, d: Dict)
    requires Valid(e) && Valid(d)
    requires Items(e) == Items(d)
    ensures e == d
  {
    forall i | 0 <= i < |d.keys| ensures e.keys[i] == d.keys[i] && e.vals[e.keys[i]] == d.vals[d.keys[i]] {
      assert Items(e)[i] == Items(d)[i];
    }
    assert e.keys == d.keys;
    forall k | k in d.vals ensures k in e.vals && e.vals[k] == d.vals[k] {
      var i :| 0 <= i < |d.keys| && d.keys[i] == k;
    }
    assert e.vals.Keys == d.vals.Keys;
  }
}
