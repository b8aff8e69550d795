/** `sort.Slice` and `sort.Strings`: what they promise of a slice and a comparison. */
module Sorting {

  /** What the sort package asks of a comparison. */
  ghost predicate StrictWeakOrder<T(!new)>(less: (T, T) -> bool) {
    && (forall x :: !less(x, x))
    && (forall x, y, z :: less(x, y) && less(y, z) ==> less(x, z))
    && (forall x, y, z :: less(x, z) ==> less(x, y) || less(y, z))
  }

  ghost predicate Sorted<T(!new)>(less: (T, T) -> bool, s: seq<T>) {
    forall i, j :: 0 <= i < j < |s| ==> !less(s[j], s[i])
  }

  /** Where x goes into a sorted slice. */
  method InsertionPoint<T(!new)>(s: seq<T>, x: T, less: (T, T) -> bool) returns (p: nat)
    requires StrictWeakOrder(less) && Sorted(less, s)
    ensures p <= |s|
    ensures forall q :: 0 <= q < p ==> !less(x, s[q])
    ensures forall q :: p <= q < |s| ==> less(x, s[q]) && !less(s[q], x)
  {
    p := |s|;
    while p > 0 && less(x, s[p - 1])
      invariant 0 <= p <= |s|
      invariant forall q :: p <= q < |s| ==> less(x, s[q])
    {
      p := p - 1;
    }
    forall q | 0 <= q < p ensures !less(x, s[q]) {
      if q < p - 1 {
        assert !less(s[p - 1], s[q]);
      }
    }
  }

  lemma InsertedSorted<T(!new)>(s: seq<T>, x: T, p: nat, less: (T, T) -> bool)
    requires Sorted(less, s) && p <= |s|
    requires forall q :: 0 <= q < p ==> !less(x, s[q])
    requires forall q :: p <= q < |s| ==> !less(s[q], x)
    ensures Sorted(less, s[..p] + [x] + s[p..])
  {
    var out := s[..p] + [x] + s[p..];
    forall i, j | 0 <= i < j < |out| ensures !less(out[j], out[i]) {
      assert i != p ==> out[i] == s[if i < p then i else i - 1];
      assert j != p ==> out[j] == s[if j < p then j else j - 1];
    }
  }

  lemma InsertedMembers<T>(s: seq<T>, x: T, p: nat)
    requires p <= |s|
    ensures multiset(s[..p] + [x] + s[p..]) == multiset(s) + multiset{x}
  {
    assert s == s[..p] + s[p..];
  }

  method Sort<T(!new, ==)>(s: seq<T>, less: (T, T) -> bool) returns (out: seq<T>)
    requires StrictWeakOrder(less)
    ensures Sorted(less, out)
    ensures multiset(out) == multiset(s)
  {
    out := [];
    for i := 0 to |s|
      invariant Sorted(less, out)
      invariant multiset(out) == multiset(s[..i])
    {
      var p := InsertionPoint(out, s[i], less);
      InsertedSorted(out, s[i], p, less);
      InsertedMembers(out, s[i], p);
      out := out[..p] + [s[i]] + out[p..];
      assert s[..i + 1] == s[..i] + [s[i]];
    }
    assert s[..|s|] == s;
  }

  ghost predicate Distinct<T>(s: seq<T>) {
    forall i, j :: 0 <= i < j < |s| ==> s[i] != s[j]
  }

  /** Ranging over a set's elements (a map's keys): each once, in no particular order. */
  method Range<T(==)>(elements: set<T>) returns (s: seq<T>)
    ensures Distinct(s)
    ensures forall x :: x in s <==> x in elements
  {
    s := [];
    var todo := elements;
    while todo != {}
      invariant todo <= elements && Distinct(s)
      invariant forall x :: x in s <==> x in elements - todo
    {
      var x :| x in todo;
      assert forall i :: 0 <= i < |s| ==> s[i] in s;
      s := s + [x];
      todo := todo - {x};
    }
  }

  lemma {:induction false} DistinctOnce<T>(s: seq<T>, x: T)
    requires Distinct(s)
    ensures multiset(s)[x] <= 1
  {
    if s != [] {
      DistinctOnce(s[1..], x);
      assert s == [s[0]] + s[1..];
      if x == s[0] {
        assert x !in s[1..];
      }
    }
  }

  /** Rearranging distinct elements leaves them distinct. */
  lemma RearrangedDistinct<T>(s: seq<T>, t: seq<T>)
    requires Distinct(s) && multiset(t) == multiset(s)
    ensures Distinct(t)
    ensures forall x :: x in t <==> x in s
  {
    forall x ensures x in t <==> x in s {
      assert x in t <==> x in multiset(t);
      assert x in s <==> x in multiset(s);
    }
    forall i, j | 0 <= i < j < |t| ensures t[i] != t[j] {
      if t[i] == t[j] {
        assert t == t[..i] + [t[i]] + t[i + 1..j] + [t[j]] + t[j + 1..];
        assert multiset(t)[t[i]] >= 2;
        DistinctOnce(s, t[i]);
      }
    }
  }

  lemma SameTails<T>(s: seq<T>, t: seq<T>)
    requires Distinct(s) && Distinct(t) && s != [] && t != [] && s[0] == t[0]
    requires forall x :: x in s <==> x in t
    ensures Distinct(s[1..]) && Distinct(t[1..])
    ensures forall x :: x in s[1..] <==> x in t[1..]
  {
    assert s == [s[0]] + s[1..] && t == [t[0]] + t[1..];
    assert s[0] !in s[1..] && t[0] !in t[1..];
    forall x ensures x in s[1..] <==> x in t[1..] {
      assert x in s <==> x == s[0] || x in s[1..];
      assert x in t <==> x == t[0] || x in t[1..];
    }
  }

  lemma SameEmptiness<T>(s: seq<T>, t: seq<T>)
    requires forall x :: x in s <==> x in t
    ensures s == [] <==> t == []
  {
    if s != [] {
      assert s[0] in s;
    }
    if t != [] {
      assert t[0] in t;
    }
  }
}
