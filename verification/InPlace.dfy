/** Filtering a slice within its own backing array. */
module InPlace {

  function Filter<T>(s: seq<T>, keep: T -> bool): (r: seq<T>)
    ensures |r| <= |s|
  {
    if s == [] then []
    else Filter(s[..|s| - 1], keep) + if keep(s[|s| - 1]) then [s[|s| - 1]] else []
  }

  lemma {:induction false} FilterMembers<T>(s: seq<T>, keep: T -> bool)
    ensures forall x :: x in Filter(s, keep) <==> x in s && keep(x)
  {
    if s != [] {
      var n := |s| - 1;
      FilterMembers(s[..n], keep);
      assert s == s[..n] + [s[n]];
    }
  }

  lemma {:induction false} FilterConcat<T>(a: seq<T>, b: seq<T>, keep: T -> bool)
    ensures Filter(a + b, keep) == Filter(a, keep) + Filter(b, keep)
  {
    if b == [] {
      assert a + b == a;
      assert Filter(a, keep) + [] == Filter(a, keep);
    } else {
      var n := |b| - 1;
      assert (a + b)[..|a| + n] == a + b[..n];
      FilterConcat(a, b[..n], keep);
      assert (a + b)[|a| + n] == b[n];
      var tail := if keep(b[n]) then [b[n]] else [];
      assert Filter(a, keep) + (Filter(b[..n], keep) + tail) == (Filter(a, keep) + Filter(b[..n], keep)) + tail;
    }
  }

  lemma {:induction false} FilterAll<T>(s: seq<T>, keep: T -> bool)
    requires forall x :: x in s ==> keep(x)
    ensures Filter(s, keep) == s
  {
    if s != [] {
      var n := |s| - 1;
      assert s == s[..n] + [s[n]];
      FilterAll(s[..n], keep);
    }
  }

  lemma {:induction false} FilterNone<T>(s: seq<T>, keep: T -> bool)
    requires forall x :: x in s ==> !keep(x)
    ensures Filter(s, keep) == []
  {
    if s != [] {
      var n := |s| - 1;
      assert s == s[..n] + [s[n]];
      FilterNone(s[..n], keep);
    }
  }

  lemma FilterOne<T>(x: T, keep: T -> bool)
    ensures Filter([x], keep) == if keep(x) then [x] else []
  {
    assert [x][..0] == [];
  }

  /** Taking a kept element out behind dropped ones takes out the first result. */
  lemma FilterTakeFirst<T>(a: seq<T>, x: T, b: seq<T>, keep: T -> bool)
    requires keep(x) && forall y :: y in a ==> !keep(y)
    ensures Filter(a + ([x] + b), keep) == [x] + Filter(a + b, keep)
  {
    FilterConcat(a, [x] + b, keep);
    FilterConcat([x], b, keep);
    FilterConcat(a, b, keep);
    FilterNone(a, keep);
    FilterOne(x, keep);
    var rest := Filter(b, keep);
    assert [] + ([x] + rest) == [x] + rest && [] + rest == rest;
  }

  lemma FilterTakeDropped<T>(a: seq<T>, x: T, b: seq<T>, keep: T -> bool)
    requires !keep(x)
    ensures Filter(a + ([x] + b), keep) == Filter(a + b, keep)
  {
    FilterConcat(a, [x] + b, keep);
    FilterConcat([x], b, keep);
    FilterConcat(a, b, keep);
    FilterOne(x, keep);
    var rest := Filter(b, keep);
    assert [] + rest == rest;
  }

  /** One more element, kept or not, preserves the relation. */
  ghost predicate KeepsOne<T>(keep: T -> bool, rel: (seq<T>, seq<T>) -> bool, a: seq<T>, b: seq<T>, x: T) {
    rel(a, b) ==> rel(a + (if keep(x) then [x] else []), b + [x])
  }

  /** A relation that survives each single element survives the whole filter. */
  lemma {:induction false} FilterKeepsRelation<T(!new)>(s: seq<T>, keep: T -> bool, rel: (seq<T>, seq<T>) -> bool)
    requires rel([], [])
    requires forall a, b, x :: x in s ==> KeepsOne(keep, rel, a, b, x)
    ensures rel(Filter(s, keep), s)
  {
    if s != [] {
      var n := |s| - 1;
      assert s == s[..n] + [s[n]];
      FilterKeepsRelation(s[..n], keep, rel);
      assert KeepsOne(keep, rel, Filter(s[..n], keep), s[..n], s[n]);
    }
  }

  /** Keeps the wanted elements at the front of the same array, in order. */
  method KeepInPlace<T>(a: array<T>, keep: T -> bool) returns (n: nat)
    modifies a
    ensures n <= a.Length && a[..n] == Filter(old(a[..]), keep)
  {
    ghost var s := a[..];
    n := 0;
    for i := 0 to a.Length
      invariant n <= i && a[..n] == Filter(s[..i], keep)
      invariant forall j :: i <= j < a.Length ==> a[j] == s[j]
    {
      ghost var kept := a[..n];
      assert s[..i + 1][..i] == s[..i];
      if keep(a[i]) {
        a[n] := a[i];
        n := n + 1;
        assert a[..n] == kept + [s[i]];
      }
    }
    assert s[..a.Length] == s;
  }
}
