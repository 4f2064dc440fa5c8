/**
 * The library sort the registry calls (qsort, section 7.22.5.2 of ISO/IEC 9899:2011).
 * Its contract promises a sorted permutation and nothing about the order of equal elements.
 */
module QSort {

  ghost predicate TotalPreorder<T(!new)>(cmp: (T, T) -> int) {
    && (forall x, y :: cmp(x, y) < 0 <==> cmp(y, x) > 0)
    && (forall x, y, z :: cmp(x, y) <= 0 && cmp(y, z) <= 0 ==> cmp(x, z) <= 0)
  }

  ghost predicate SortedBy<T>(s: seq<T>, cmp: (T, T) -> int) {
    forall i, j :: 0 <= i < j < |s| ==> cmp(s[i], s[j]) <= 0
  }

  function Insert<T>(x: T, s: seq<T>, cmp: (T, T) -> int): (r: seq<T>)
    ensures multiset(r) == multiset{x} + multiset(s)
  {
    if s == [] || cmp(x, s[0]) <= 0 then [x] + s
    else
      assert s == [s[0]] + s[1..];
      [s[0]] + Insert(x, s[1..], cmp)
  }

  /** An element that is no later than a sorted sequence's first is no later than any of it. */
  lemma SortedCons<T(!new)>(x: T, s: seq<T>, cmp: (T, T) -> int)
    requires SortedBy(s, cmp)
    requires forall y :: y in s ==> cmp(x, y) <= 0
    ensures SortedBy([x] + s, cmp)
  {
    forall i, j | 0 <= i < j < |s| + 1 ensures cmp(([x] + s)[i], ([x] + s)[j]) <= 0 {
      if i > 0 { assert cmp(s[i - 1], s[j - 1]) <= 0; } else { assert s[j - 1] in s; }
    }
  }

  lemma BelowFirst<T(!new)>(x: T, s: seq<T>, cmp: (T, T) -> int)
    requires TotalPreorder(cmp) && SortedBy(s, cmp) && s != [] && cmp(x, s[0]) <= 0
    ensures forall y :: y in s ==> cmp(x, y) <= 0
  {
    forall y | y in s ensures cmp(x, y) <= 0 {
      var j :| 0 <= j < |s| && s[j] == y;
      if j > 0 { assert cmp(s[0], y) <= 0; }
    }
  }

  lemma {:induction false} InsertSorts<T(!new)>(x: T, s: seq<T>, cmp: (T, T) -> int)
    requires TotalPreorder(cmp) && SortedBy(s, cmp)
    ensures SortedBy(Insert(x, s, cmp), cmp)
  {
    if s == [] {
    } else if cmp(x, s[0]) <= 0 {
      BelowFirst(x, s, cmp);
      SortedCons(x, s, cmp);
    } else {
      InsertSorts(x, s[1..], cmp);
      var t := Insert(x, s[1..], cmp);
      forall y | y in t ensures cmp(s[0], y) <= 0 {
        assert y in multiset(t);
        if y != x {
          assert y in s[1..];
          var j :| 0 <= j < |s[1..]| && s[1..][j] == y;
          assert cmp(s[0], s[j + 1]) <= 0;
        }
      }
      SortedCons(s[0], t, cmp);
    }
  }

  method QSort<T(!new)>(a: array<T>, cmp: (T, T) -> int)
    requires TotalPreorder(cmp)
    modifies a
    ensures SortedBy(a[..], cmp)
    ensures multiset(a[..]) == old(multiset(a[..]))
  {
    var s: seq<T> := [];
    for k := 0 to a.Length
      invariant a[..] == old(a[..])
      invariant SortedBy(s, cmp)
      invariant multiset(s) == multiset(a[..k])
    {
      InsertSorts(a[k], s, cmp);
      s := Insert(a[k], s, cmp);
      assert a[..k + 1] == a[..k] + [a[k]];
    }
    assert a[..a.Length] == a[..];
    assert |multiset(s)| == |multiset(a[..])|;
    forall i | 0 <= i < a.Length {
      a[i] := s[i];
    }
    assert a[..] == s;
  }
}
