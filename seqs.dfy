/**
  Sequence operations that the storefront's scripts get from JavaScript's Array
  and Set: `filter`, `findIndex`/`find`, and the de-duplication performed by
  `[...new Set(xs)]` (a Set iterates in insertion order, so the result lists the
  distinct values in order of first occurrence).
*/
module Seqs {

  /** `xs.filter(f)`: the elements satisfying `f`, in their original order. */
  function Filter<T>(f: T -> bool, s: seq<T>): (r: seq<T>)
    ensures |r| <= |s|
  {
    if s == [] then [] else (if f(s[0]) then [s[0]] else []) + Filter(f, s[1..])
  }

  /** `r` is an order-preserving subsequence of `s` (checked by greedy matching). */
  predicate IsSubseq<T(==)>(r: seq<T>, s: seq<T>)
  {
    if r == [] then true
    else if s == [] then false
    else if r[0] == s[0] then IsSubseq(r[1..], s[1..])
    else IsSubseq(r, s[1..])
  }

  /** No value occurs twice. */
  predicate NoDup<T(==)>(s: seq<T>)
  {
    forall i, j :: 0 <= i < j < |s| ==> s[i] != s[j]
  }

  /** `xs.indexOf(x)` / `xs.findIndex(y => y === x)`: the first index holding `x`, or -1. */
  function IndexOf<T(==)>(s: seq<T>, x: T): (k: int)
    ensures -1 <= k < |s|
    ensures k == -1 <==> x !in s
    ensures 0 <= k ==> s[k] == x && forall j :: 0 <= j < k ==> s[j] != x
  {
    if s == [] then -1
    else if s[0] == x then 0
    else
      var k := IndexOf(s[1..], x);
      if k == -1 then -1 else k + 1
  }

  /** `[...new Set(s)]`: each value once, at the place where it first occurs. */
  function Dedup<T(==)>(s: seq<T>): seq<T>
  {
    if s == [] then []
    else
      var r := Dedup(s[..|s| - 1]);
      if s[|s| - 1] in r then r else r + [s[|s| - 1]]
  }

  lemma {:induction false} FilterMembership<T>(f: T -> bool, s: seq<T>, x: T)
    ensures x in Filter(f, s) <==> x in s && f(x)
  {
    if s != [] {
      FilterMembership(f, s[1..], x);
      assert s == [s[0]] + s[1..];
    }
  }

  lemma {:induction false} FilterAll<T>(f: T -> bool, s: seq<T>)
    requires forall i :: 0 <= i < |s| ==> f(s[i])
    ensures Filter(f, s) == s
  {
    if s != [] {
      FilterAll(f, s[1..]);
      assert s == [s[0]] + s[1..];
    }
  }

  lemma {:induction false} FilterNone<T>(f: T -> bool, s: seq<T>)
    requires forall i :: 0 <= i < |s| ==> !f(s[i])
    ensures Filter(f, s) == []
  {
    if s != [] {
      FilterNone(f, s[1..]);
    }
  }

  lemma {:induction false} FilterSnoc<T>(f: T -> bool, s: seq<T>, y: T)
    ensures Filter(f, s + [y]) == Filter(f, s) + (if f(y) then [y] else [])
  {
    if s == [] {
      assert [] + [y] == [y];
    } else {
      var t := if f(y) then [y] else [];
      var h := if f(s[0]) then [s[0]] else [];
      assert (s + [y])[0] == s[0];
      assert (s + [y])[1..] == s[1..] + [y];
      calc {
        Filter(f, s + [y]);
        h + Filter(f, s[1..] + [y]);
        { FilterSnoc(f, s[1..], y); }
        h + (Filter(f, s[1..]) + t);
        (h + Filter(f, s[1..])) + t;
        Filter(f, s) + t;
      }
    }
  }

  lemma {:induction false} FilterConcat<T>(f: T -> bool, a: seq<T>, b: seq<T>)
    ensures Filter(f, a + b) == Filter(f, a) + Filter(f, b)
  {
    if a == [] {
      assert [] + b == b;
    } else {
      var h := if f(a[0]) then [a[0]] else [];
      assert (a + b)[0] == a[0];
      assert (a + b)[1..] == a[1..] + b;
      calc {
        Filter(f, a + b);
        h + Filter(f, a[1..] + b);
        { FilterConcat(f, a[1..], b); }
        h + (Filter(f, a[1..]) + Filter(f, b));
        (h + Filter(f, a[1..])) + Filter(f, b);
      }
    }
  }

  lemma {:induction false} FilterIsSubseq<T>(f: T -> bool, s: seq<T>)
    ensures IsSubseq(Filter(f, s), s)
  {
    if s != [] {
      FilterIsSubseq(f, s[1..]);
      var r := Filter(f, s);
      if f(s[0]) {
        assert r == [s[0]] + Filter(f, s[1..]);
        assert r[0] == s[0] && r[1..] == Filter(f, s[1..]);
      } else if r != [] {
        assert r == Filter(f, s[1..]);
        FilterMembership(f, s[1..], r[0]);
        assert r[0] != s[0];
      }
    }
  }

  /** `filter` keeps every copy of a selected value and no copy of a rejected one. */
  lemma {:induction false} FilterMultiset<T>(f: T -> bool, s: seq<T>, x: T)
    ensures multiset(Filter(f, s))[x] == if f(x) then multiset(s)[x] else 0
  {
    if s != [] {
      FilterMultiset(f, s[1..], x);
      assert s == [s[0]] + s[1..];
      assert multiset(s) == multiset([s[0]]) + multiset(s[1..]);
      var h := if f(s[0]) then [s[0]] else [];
      assert multiset(Filter(f, s)) == multiset(h) + multiset(Filter(f, s[1..]));
    }
  }

  /** `filter` keeps the order, selects exactly the elements passing `f`, and keeps each with its multiplicity. */
  lemma FilterSpec<T>(f: T -> bool, s: seq<T>)
    ensures IsSubseq(Filter(f, s), s)
    ensures forall x :: x in Filter(f, s) <==> x in s && f(x)
    ensures forall x :: multiset(Filter(f, s))[x] == if f(x) then multiset(s)[x] else 0
  {
    FilterIsSubseq(f, s);
    forall x ensures x in Filter(f, s) <==> x in s && f(x) {
      FilterMembership(f, s, x);
    }
    forall x ensures multiset(Filter(f, s))[x] == if f(x) then multiset(s)[x] else 0 {
      FilterMultiset(f, s, x);
    }
  }

  /** Two callbacks that agree everywhere select the same elements. */
  lemma {:induction false} FilterSame<T>(f: T -> bool, g: T -> bool, s: seq<T>)
    requires forall x :: f(x) == g(x)
    ensures Filter(f, s) == Filter(g, s)
  {
    if s != [] {
      FilterSame(f, g, s[1..]);
    }
  }

  /** Filtering twice is filtering once by the conjunction. */
  lemma {:induction false} FilterFilter<T>(f: T -> bool, g: T -> bool, h: T -> bool, s: seq<T>)
    requires forall x :: h(x) == (f(x) && g(x))
    ensures Filter(g, Filter(f, s)) == Filter(h, s)
  {
    if s != [] {
      FilterFilter(f, g, h, s[1..]);
      var fs := Filter(f, s);
      if f(s[0]) {
        assert fs == [s[0]] + Filter(f, s[1..]);
        assert fs[0] == s[0] && fs[1..] == Filter(f, s[1..]);
        assert Filter(g, fs) == (if g(s[0]) then [s[0]] else []) + Filter(g, fs[1..]);
      } else {
        assert fs == Filter(f, s[1..]);
        assert !h(s[0]);
      }
    }
  }

  lemma {:induction false} FilterNoDup<T>(f: T -> bool, s: seq<T>)
    requires NoDup(s)
    ensures NoDup(Filter(f, s))
  {
    if s != [] {
      FilterNoDup(f, s[1..]);
      FilterMembership(f, s[1..], s[0]);
      assert s[0] !in s[1..];
    }
  }

  lemma {:induction false} IndexOfAppend<T>(s: seq<T>, t: seq<T>, x: T)
    ensures x in s ==> IndexOf(s + t, x) == IndexOf(s, x)
    ensures x !in s && x in t ==> IndexOf(s + t, x) == |s| + IndexOf(t, x)
  {
    var k := IndexOf(s + t, x);
    if x in s {
      var i := IndexOf(s, x);
      assert (s + t)[i] == x;
    } else if x in t {
      var i := IndexOf(t, x);
      assert (s + t)[|s| + i] == x;
      assert t[k - |s|] == x;
    }
  }

  lemma {:induction false} DedupMembership<T>(s: seq<T>, x: T)
    ensures x in Dedup(s) <==> x in s
  {
    if s != [] {
      var p := s[..|s| - 1];
      DedupMembership(p, x);
      assert s == p + [s[|s| - 1]];
    }
  }

  lemma {:induction false} DedupNoDup<T>(s: seq<T>)
    ensures NoDup(Dedup(s))
  {
    if s != [] {
      DedupNoDup(s[..|s| - 1]);
    }
  }

  /** The distinct values appear in the order of their first occurrence in `s`. */
  lemma {:induction false} DedupOrder<T>(s: seq<T>)
    ensures forall i, j :: 0 <= i < j < |Dedup(s)| ==> IndexOf(s, Dedup(s)[i]) < IndexOf(s, Dedup(s)[j])
  {
    if s != [] {
      var p, y := s[..|s| - 1], s[|s| - 1];
      var r := Dedup(p);
      DedupOrder(p);
      assert s == p + [y];
      forall i | 0 <= i < |r|
        ensures IndexOf(s, r[i]) == IndexOf(p, r[i])
      {
        DedupMembership(p, r[i]);
        IndexOfAppend(p, [y], r[i]);
      }
      if y !in r {
        DedupMembership(p, y);
        IndexOfAppend(p, [y], y);
        var d := r + [y];
        assert Dedup(s) == d;
        forall i, j | 0 <= i < j < |d|
          ensures IndexOf(s, d[i]) < IndexOf(s, d[j])
        {
          assert d[i] == r[i];
          if j == |r| {
            assert d[j] == y;
          } else {
            assert d[j] == r[j];
          }
        }
      }
    }
  }

  /** The full characterisation of `[...new Set(s)]`. */
  lemma DedupSpec<T>(s: seq<T>)
    ensures NoDup(Dedup(s))
    ensures forall x :: x in Dedup(s) <==> x in s
    ensures forall i, j :: 0 <= i < j < |Dedup(s)| ==> IndexOf(s, Dedup(s)[i]) < IndexOf(s, Dedup(s)[j])
  {
    DedupNoDup(s);
    DedupOrder(s);
    forall x ensures x in Dedup(s) <==> x in s {
      DedupMembership(s, x);
    }
  }

  lemma NoDupConcat<T>(a: seq<T>, b: seq<T>)
    requires NoDup(a) && NoDup(b)
    requires forall x :: x in a ==> x !in b
    ensures NoDup(a + b)
  {
    forall i, j | 0 <= i < j < |a + b|
      ensures (a + b)[i] != (a + b)[j]
    {
      if i < |a| && j >= |a| {
        assert (a + b)[i] in a;
        assert (a + b)[j] == b[j - |a|];
      }
    }
  }

  lemma {:induction false} SubseqRefl<T>(s: seq<T>)
    ensures IsSubseq(s, s)
  {
    if s != [] {
      SubseqRefl(s[1..]);
    }
  }

  /** Dropping the first element of `a` keeps it a subsequence. */
  lemma {:induction false} SubseqTail<T>(a: seq<T>, s: seq<T>)
    requires a != [] && IsSubseq(a, s)
    ensures IsSubseq(a[1..], s)
    decreases |s|, 1
  {
    if a[0] == s[0] {
      SubseqCons(a[1..], s);
    } else {
      SubseqTail(a, s[1..]);
      SubseqCons(a[1..], s);
    }
  }

  /** A subsequence of the tail is a subsequence of the whole. */
  lemma {:induction false} SubseqCons<T>(a: seq<T>, s: seq<T>)
    requires s != [] && IsSubseq(a, s[1..])
    ensures IsSubseq(a, s)
    decreases |s|, 0
  {
    if a != [] && a[0] == s[0] {
      SubseqTail(a, s[1..]);
    }
  }

  lemma {:induction false} SubseqTrans<T>(a: seq<T>, b: seq<T>, c: seq<T>)
    requires IsSubseq(a, b) && IsSubseq(b, c)
    ensures IsSubseq(a, c)
    decreases |c|
  {
    if a != [] && b != [] && c != [] {
      if b[0] == c[0] {
        if a[0] == b[0] {
          SubseqTrans(a[1..], b[1..], c[1..]);
        } else {
          SubseqTrans(a, b[1..], c[1..]);
        }
      } else {
        SubseqTrans(a, b, c[1..]);
        SubseqCons(a, c);
      }
    }
  }
}
