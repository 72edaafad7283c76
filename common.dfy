/**
 * Building blocks shared by the model: an optional value (Python's `None`
 * or a value), the "no element twice" predicate, and the shape of a Python
 * list comprehension with a condition, `[g(x) for x in xs if c(x)]`, as one
 * function `FilterMap` with the facts the rest of the model uses about it.
 */
module Common {

  datatype Option<+T> = None | Some(value: T)

  predicate Distinct<T(==)>(s: seq<T>) {
    forall i, j :: 0 <= i < j < |s| ==> s[i] != s[j]
  }

  /** The values `f` gives, in order, for the elements it maps to `Some`. */
  function FilterMap<T, U>(s: seq<T>, f: T -> Option<U>): (r: seq<U>)
    ensures |r| <= |s|
  {
    if s == [] then []
    else
      var last := f(s[|s| - 1]);
      FilterMap(s[..|s| - 1], f) + (if last.Some? then [last.value] else [])
  }

  /** How many elements `f` maps to `Some`. */
  function CountSome<T, U>(s: seq<T>, f: T -> Option<U>): (n: nat)
    ensures n <= |s|
  {
    if s == [] then 0
    else CountSome(s[..|s| - 1], f) + (if f(s[|s| - 1]).Some? then 1 else 0)
  }

  /** One output per element that `f` keeps, and no other. */
  lemma {:induction false} FilterMapLength<T, U>(s: seq<T>, f: T -> Option<U>)
    ensures |FilterMap(s, f)| == CountSome(s, f)
  {
    if s != [] {
      FilterMapLength(s[..|s| - 1], f);
    }
  }

  /** Extending the input by one element extends the output by at most that element's value. */
  lemma FilterMapPrefix<T, U>(s: seq<T>, f: T -> Option<U>, n: nat)
    requires n < |s|
    ensures FilterMap(s[..n + 1], f) == FilterMap(s[..n], f) + (if f(s[n]).Some? then [f(s[n]).value] else [])
    ensures CountSome(s[..n + 1], f) == CountSome(s[..n], f) + (if f(s[n]).Some? then 1 else 0)
  {
    assert s[..n + 1][..n] == s[..n];
  }

  /** A kept element lands at the position given by the number of kept elements before it. */
  lemma {:induction false} FilterMapPosition<T, U>(s: seq<T>, f: T -> Option<U>, i: nat)
    requires i < |s| && f(s[i]).Some?
    ensures CountSome(s[..i], f) < |FilterMap(s, f)|
    ensures FilterMap(s, f)[CountSome(s[..i], f)] == f(s[i]).value
  {
    var n := |s| - 1;
    var init := s[..n];
    if i == n {
      assert init == s[..i];
      FilterMapLength(init, f);
    } else {
      assert init[..i] == s[..i];
      FilterMapPosition(init, f, i);
    }
  }

  /** Every output comes from a kept element, at the position `FilterMapPosition` gives it. */
  lemma {:induction false} FilterMapOrigin<T, U>(s: seq<T>, f: T -> Option<U>, k: nat) returns (i: nat)
    requires k < |FilterMap(s, f)|
    ensures i < |s| && f(s[i]) == Some(FilterMap(s, f)[k])
    ensures k == CountSome(s[..i], f)
  {
    var n := |s| - 1;
    var init := s[..n];
    FilterMapLength(init, f);
    if k < |FilterMap(init, f)| {
      i := FilterMapOrigin(init, f, k);
      assert init[..i] == s[..i];
    } else {
      i := n;
      assert init == s[..i];
    }
  }

  /** When `f` never gives the same value for two positions, the outputs are pairwise distinct. */
  lemma {:induction false} FilterMapDistinct<T, U>(s: seq<T>, f: T -> Option<U>)
    requires forall i, j :: 0 <= i < j < |s| && f(s[i]).Some? && f(s[j]).Some? ==> f(s[i]).value != f(s[j]).value
    ensures Distinct(FilterMap(s, f))
  {
    var r := FilterMap(s, f);
    forall k1, k2 | 0 <= k1 < k2 < |r|
      ensures r[k1] != r[k2]
    {
      var i1 := FilterMapOrigin(s, f, k1);
      var i2 := FilterMapOrigin(s, f, k2);
      assert i1 != i2;
    }
  }
}
