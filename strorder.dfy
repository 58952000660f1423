/**
 * Python's ordering of `str` values (code point by code point, a proper
 * prefix first) and `sorted()` over a list of strings.
 */
module StrOrder {

  /** `a <= b` on Python strings. */
  predicate Leq(a: string, b: string)
    ensures a <= b ==> Leq(a, b)
    decreases |a|
  {
    a == [] || (b != [] && (a[0] < b[0] || (a[0] == b[0] && Leq(a[1..], b[1..]))))
  }

  /**
   * The order spelled out: `a` is a prefix of `b`, or at the first position
   * where they differ `a` has the smaller code point.
   */
  lemma {:induction false} LeqFirstDifference(a: string, b: string)
    ensures Leq(a, b) <==>
      a <= b || exists i :: 0 <= i < |a| && i < |b| && a[..i] == b[..i] && a[i] < b[i]
  {
    if a != [] && b != [] {
      LeqFirstDifference(a[1..], b[1..]);
      if a[0] == b[0] {
        if exists i :: 0 <= i < |a| - 1 && i < |b| - 1 && a[1..][..i] == b[1..][..i] && a[1..][i] < b[1..][i] {
          var i :| 0 <= i < |a| - 1 && i < |b| - 1 && a[1..][..i] == b[1..][..i] && a[1..][i] < b[1..][i];
          assert a[..i + 1] == [a[0]] + a[1..][..i];
          assert b[..i + 1] == [b[0]] + b[1..][..i];
        }
        if exists i :: 0 <= i < |a| && i < |b| && a[..i] == b[..i] && a[i] < b[i] {
          var i :| 0 <= i < |a| && i < |b| && a[..i] == b[..i] && a[i] < b[i];
          assert i > 0;
          assert a[1..][..i - 1] == a[1..i] == b[1..i] == b[1..][..i - 1];
        }
        if a <= b {
          assert a[1..] <= b[1..];
        }
        if a[1..] <= b[1..] {
          assert a == [a[0]] + a[1..];
        }
      } else {
        assert a[..0] == b[..0];
      }
    }
  }

  lemma {:induction false} LeqReflexive(a: string)
    ensures Leq(a, a)
  {
    if a != [] {
      LeqReflexive(a[1..]);
    }
  }

  lemma {:induction false} LeqTotal(a: string, b: string)
    ensures Leq(a, b) || Leq(b, a)
  {
    if a != [] && b != [] && a[0] == b[0] {
      LeqTotal(a[1..], b[1..]);
    }
  }

  lemma {:induction false} LeqTransitive(a: string, b: string, c: string)
    requires Leq(a, b) && Leq(b, c)
    ensures Leq(a, c)
  {
    if a != [] && a[0] == b[0] && b[0] == c[0] {
      LeqTransitive(a[1..], b[1..], c[1..]);
    }
  }

  lemma {:induction false} LeqAntisymmetric(a: string, b: string)
    requires Leq(a, b) && Leq(b, a)
    ensures a == b
  {
    if a != [] {
      LeqAntisymmetric(a[1..], b[1..]);
      assert a == [a[0]] + a[1..];
      assert b == [b[0]] + b[1..];
    }
  }

  /** Ascending in Python's order. */
  predicate Sorted(s: seq<string>)
  {
    forall i, j :: 0 <= i < j < |s| ==> Leq(s[i], s[j])
  }

  /** Every element of `s` is at least `x`. */
  predicate AllAtLeast(x: string, s: seq<string>)
  {
    forall k :: 0 <= k < |s| ==> Leq(x, s[k])
  }

  lemma SortedCons(x: string, s: seq<string>)
    requires AllAtLeast(x, s) && Sorted(s)
    ensures Sorted([x] + s)
  {
    forall i, j | 0 <= i < j < |[x] + s|
      ensures Leq(([x] + s)[i], ([x] + s)[j])
    {
      if i > 0 {
        assert ([x] + s)[i] == s[i - 1];
      }
      assert ([x] + s)[j] == s[j - 1];
    }
  }

  lemma AtLeastByMultiset(x: string, s: seq<string>, t: seq<string>)
    requires AllAtLeast(x, s) && multiset(t) <= multiset(s)
    ensures AllAtLeast(x, t)
  {
    forall k | 0 <= k < |t|
      ensures Leq(x, t[k])
    {
      assert t[k] in multiset(t);
      assert t[k] in s;
    }
  }

  /** Insertion of `x` into a sorted list, keeping it sorted. */
  function Insert(x: string, s: seq<string>): (r: seq<string>)
    requires Sorted(s)
    ensures Sorted(r) && multiset(r) == multiset(s) + multiset{x}
  {
    if s == [] then [x]
    else if Leq(x, s[0]) then
      assert AllAtLeast(x, s) by {
        forall k | 0 <= k < |s| ensures Leq(x, s[k]) {
          if k > 0 { LeqTransitive(x, s[0], s[k]); }
        }
      }
      assert multiset([x] + s) == multiset(s) + multiset{x};
      SortedCons(x, s);
      [x] + s
    else
      LeqTotal(x, s[0]);
      var t := Insert(x, s[1..]);
      assert AllAtLeast(s[0], s[1..] + [x]);
      assert multiset(t) == multiset(s[1..] + [x]);
      AtLeastByMultiset(s[0], s[1..] + [x], t);
      assert s == [s[0]] + s[1..];
      SortedCons(s[0], t);
      [s[0]] + t
  }

  /** `sorted(s)`. */
  function Sort(s: seq<string>): (r: seq<string>)
    ensures Sorted(r) && multiset(r) == multiset(s)
  {
    if s == [] then []
    else
      assert s == [s[0]] + s[1..];
      Insert(s[0], Sort(s[1..]))
  }

  lemma TailMultiset(a: seq<string>)
    requires a != []
    ensures multiset(a[1..]) == multiset(a) - multiset{a[0]}
  {
    assert a == [a[0]] + a[1..];
  }

  /** The head of a sorted list is at most any of its elements. */
  lemma HeadIsLeast(a: seq<string>, x: string)
    requires Sorted(a) && x in a
    ensures Leq(a[0], x)
  {
    var k :| 0 <= k < |a| && a[k] == x;
    if k == 0 {
      LeqReflexive(x);
    }
  }

  /**
   * A sorted list is fixed by its elements: any sorting procedure gives the
   * list `Sort` gives.
   */
  lemma {:induction false} SortedUnique(a: seq<string>, b: seq<string>)
    requires Sorted(a) && Sorted(b) && multiset(a) == multiset(b)
    ensures a == b
  {
    if a != [] {
      assert a[0] in multiset(b);
      assert b != [] && b[0] in multiset(a);
      HeadIsLeast(a, b[0]);
      HeadIsLeast(b, a[0]);
      LeqAntisymmetric(a[0], b[0]);
      TailMultiset(a);
      TailMultiset(b);
      assert Sorted(a[1..]) && Sorted(b[1..]);
      SortedUnique(a[1..], b[1..]);
      assert a == [a[0]] + a[1..];
      assert b == [b[0]] + b[1..];
    } else {
      assert |multiset(b)| == 0;
    }
  }

  /** Whatever sorted permutation of `s` one takes, it is `Sort(s)`. */
  lemma SortIsUnique(s: seq<string>, r: seq<string>)
    requires Sorted(r) && multiset(r) == multiset(s)
    ensures r == Sort(s)
  {
    SortedUnique(r, Sort(s));
  }
}
