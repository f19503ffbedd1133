/** Order-preserving selection of rows, the operation behind every `df[mask]` of the dashboard. */
module Seqs {

  /** The elements of `s` that satisfy `p`, in their original order. */
  function Filter<T(!new)>(s: seq<T>, p: T -> bool): (r: seq<T>)
    ensures |r| <= |s|
    ensures forall x :: x in r <==> x in s && p(x)
  {
    if s == [] then [] else (if p(s[0]) then [s[0]] else []) + Filter(s[1..], p)
  }

  /** Selecting from a concatenation selects from each part and keeps the parts in order. */
  lemma {:induction false} FilterConcat<T(!new)>(a: seq<T>, b: seq<T>, p: T -> bool)
    ensures Filter(a + b, p) == Filter(a, p) + Filter(b, p)
  {
    if a == [] {
      assert a + b == b;
    } else {
      assert (a + b)[0] == a[0];
      assert (a + b)[1..] == a[1..] + b;
      FilterConcat(a[1..], b, p);
    }
  }

  /** When every element satisfies `p`, selection keeps the whole sequence. */
  lemma {:induction false} FilterAll<T(!new)>(s: seq<T>, p: T -> bool)
    requires forall i :: 0 <= i < |s| ==> p(s[i])
    ensures Filter(s, p) == s
  {
    if s != [] {
      FilterAll(s[1..], p);
    }
  }

  /** When no element satisfies `p`, nothing is selected. */
  lemma {:induction false} FilterNone<T(!new)>(s: seq<T>, p: T -> bool)
    requires forall i :: 0 <= i < |s| ==> !p(s[i])
    ensures Filter(s, p) == []
  {
    if s != [] {
      FilterNone(s[1..], p);
    }
  }

  /** Selection from a sequence with a given first element. */
  lemma FilterCons<T(!new)>(x: T, s: seq<T>, p: T -> bool)
    ensures Filter([x] + s, p) == (if p(x) then [x] else []) + Filter(s, p)
  {
    assert ([x] + s)[1..] == s;
  }

  /** Selection from three elements, written out. */
  lemma FilterThree<T(!new)>(x: T, y: T, z: T, p: T -> bool)
    ensures Filter([x, y, z], p) ==
      (if p(x) then [x] else []) + (if p(y) then [y] else []) + (if p(z) then [z] else [])
  {
    FilterCons(z, [], p);
    assert [z] + [] == [z];
    FilterCons(y, [z], p);
    assert [y] + [z] == [y, z];
    FilterCons(x, [y, z], p);
    assert [x] + [y, z] == [x, y, z];
  }

  /** Selecting twice is selecting once by the conjunction. */
  lemma {:induction false} FilterFilter<T(!new)>(s: seq<T>, p: T -> bool, q: T -> bool, pq: T -> bool)
    requires forall x :: pq(x) == (p(x) && q(x))
    ensures Filter(Filter(s, p), q) == Filter(s, pq)
  {
    if s != [] {
      FilterFilter(s[1..], p, q, pq);
      if p(s[0]) {
        assert Filter(s, p) == [s[0]] + Filter(s[1..], p);
        FilterConcat([s[0]], Filter(s[1..], p), q);
        assert [s[0]][1..] == [];
        assert Filter([s[0]], q) == if q(s[0]) then [s[0]] else [];
      } else {
        assert Filter(s, p) == [] + Filter(s[1..], p) == Filter(s[1..], p);
      }
    }
  }

  /** Replacing an element that is not selected by another that is not selected changes nothing. */
  lemma {:induction false} FilterUpdateUnselected<T(!new)>(s: seq<T>, p: T -> bool, i: nat, x: T)
    requires i < |s|
    requires !p(s[i]) && !p(x)
    ensures Filter(s[i := x], p) == Filter(s, p)
  {
    if i == 0 {
      assert s[i := x][1..] == s[1..];
    } else {
      assert s[i := x][0] == s[0];
      assert s[i := x][1..] == s[1..][i - 1 := x];
      FilterUpdateUnselected(s[1..], p, i - 1, x);
    }
  }

  /** Selecting from a longer prefix never selects fewer elements. */
  lemma FilterPrefixMonotone<T(!new)>(s: seq<T>, t: seq<T>, p: T -> bool)
    requires s <= t
    ensures Filter(s, p) <= Filter(t, p)
  {
  }

  /** No element occurs twice. */
  predicate NoDuplicates<T(==,!new)>(s: seq<T>)
  {
    forall i, j :: 0 <= i < j < |s| ==> s[i] != s[j]
  }

  /** The position of the first occurrence of `x` in `s`. */
  function FirstIndex<T(==,!new)>(s: seq<T>, x: T): (k: nat)
    requires x in s
    ensures k < |s| && s[k] == x && x !in s[..k]
  {
    if s[0] == x then 0 else
      assert s[..1 + FirstIndex(s[1..], x)] == [s[0]] + s[1..][..FirstIndex(s[1..], x)];
      1 + FirstIndex(s[1..], x)
  }

  /** The distinct elements of `s` in order of first appearance (pandas `unique`). */
  function Distinct<T(==,!new)>(s: seq<T>): (r: seq<T>)
    ensures NoDuplicates(r)
    ensures forall x :: x in r <==> x in s
    decreases |s|
  {
    if s == [] then []
    else
      var init := s[..|s| - 1];
      var last := s[|s| - 1];
      assert s == init + [last];
      var d := Distinct(init);
      if last in d then d else d + [last]
  }

  /** `Distinct` never lengthens its input. */
  lemma {:induction false} DistinctLength<T(!new)>(s: seq<T>)
    ensures |Distinct(s)| <= |s|
    decreases |s|
  {
    if s != [] {
      DistinctLength(s[..|s| - 1]);
    }
  }

  /** Appending an element does not move the first occurrence of an element already present. */
  lemma {:induction false} FirstIndexAppend<T(!new)>(s: seq<T>, x: T, y: T)
    requires y in s
    ensures FirstIndex(s + [x], y) == FirstIndex(s, y)
  {
    if s[0] != y {
      assert (s + [x])[1..] == s[1..] + [x];
      FirstIndexAppend(s[1..], x, y);
    }
  }

  /** `Distinct` lists the elements in strictly increasing order of first appearance. */
  lemma {:induction false} DistinctFirstAppearanceOrder<T(!new)>(s: seq<T>, i: nat, j: nat)
    requires i < j < |Distinct(s)|
    ensures FirstIndex(s, Distinct(s)[i]) < FirstIndex(s, Distinct(s)[j])
    decreases |s|
  {
    var init := s[..|s| - 1];
    var last := s[|s| - 1];
    assert s == init + [last];
    var d := Distinct(init);
    assert Distinct(s)[i] == d[i];
    assert d[i] in init;
    FirstIndexAppend(init, last, d[i]);
    if j < |d| {
      assert Distinct(s)[j] == d[j];
      FirstIndexAppend(init, last, d[j]);
      DistinctFirstAppearanceOrder(init, i, j);
    } else {
      assert last !in d && Distinct(s)[j] == last;
      assert last !in init;
    }
  }

  /** The distinct elements of a prefix come first, in the same order. */
  lemma {:induction false} DistinctPrefix<T(!new)>(a: seq<T>, b: seq<T>)
    ensures Distinct(a) <= Distinct(a + b)
    decreases |b|
  {
    if b == [] {
      assert a + b == a;
    } else {
      var b' := b[..|b| - 1];
      var s := a + b;
      assert s[..|s| - 1] == a + b';
      DistinctPrefix(a, b');
    }
  }
}
