/** The loops over the registry's arrays: the four binary searches and the construction of the two sorted views. */
module RegistryIndex {
  import opened Types
  import opened Lists
  import opened RegistrySpec
  import Q = QSort

  /** The entries behind a table pointer; a null table has none. */
  ghost function Contents<T>(a: array?<T>): seq<T>
    reads a
  {
    if a == null then [] else a[..]
  }

  function KeyCmp(e: Entry, s: TaskId, p: TaskId, id: U32): int { TripleCmp(e.sub, e.pub, e.id, s, p, id) }

  function PtrCmp(ram: seq<Entry>, i: nat, p: TaskId, id: U32): int {
    PairCmp(Deref(ram, i).pub, Deref(ram, i).id, p, id)
  }

  lemma KeyCmpMonotone(ram: seq<Entry>, i: nat, j: nat, s: TaskId, p: TaskId, id: U32)
    requires DirectSorted(ram) && i <= j < |ram|
    ensures KeyCmp(ram[j], s, p, id) < 0 ==> KeyCmp(ram[i], s, p, id) < 0
    ensures KeyCmp(ram[j], s, p, id) <= 0 ==> KeyCmp(ram[i], s, p, id) <= 0
  {
    if i < j { assert CmpDirect(ram[i], ram[j]) <= 0; }
  }

  lemma PtrCmpMonotone(ram: seq<Entry>, fwd: seq<nat>, i: nat, j: nat, p: TaskId, id: U32)
    requires ForwardIndex(ram, fwd) && i <= j < |fwd|
    ensures PtrCmp(ram, fwd[j], p, id) < 0 ==> PtrCmp(ram, fwd[i], p, id) < 0
    ensures PtrCmp(ram, fwd[j], p, id) <= 0 ==> PtrCmp(ram, fwd[i], p, id) <= 0
  {
    if i < j { assert CmpForward(Deref(ram, fwd[i]), Deref(ram, fwd[j])) <= 0; }
  }

  /** _thread_reg_lower_direct. */
  method LowerDirect(a: array?<Entry>, n: nat, s: TaskId, p: TaskId, id: U32) returns (lo: nat)
    requires n == |Contents(a)| && DirectSorted(Contents(a))
    ensures lo <= n
    ensures forall i :: 0 <= i < n ==> (KeyCmp(Contents(a)[i], s, p, id) < 0 <==> i < lo)
  {
    lo := 0;
    var hi := n;
    ghost var ram := Contents(a);
    while lo < hi
      invariant lo <= hi <= n
      invariant forall i :: 0 <= i < lo ==> KeyCmp(ram[i], s, p, id) < 0
      invariant forall i :: hi <= i < n ==> KeyCmp(ram[i], s, p, id) >= 0
    {
      var mid := lo + (hi - lo) / 2;
      forall i, j | 0 <= i <= j < n ensures KeyCmp(ram[j], s, p, id) < 0 ==> KeyCmp(ram[i], s, p, id) < 0 {
        KeyCmpMonotone(ram, i, j, s, p, id);
      }
      if TripleCmp(a[mid].sub, a[mid].pub, a[mid].id, s, p, id) < 0 {
        lo := mid + 1;
      } else {
        hi := mid;
      }
    }
  }

  /** _thread_reg_upper_direct. */
  method UpperDirect(a: array?<Entry>, n: nat, s: TaskId, p: TaskId, id: U32) returns (lo: nat)
    requires n == |Contents(a)| && DirectSorted(Contents(a))
    ensures lo <= n
    ensures forall i :: 0 <= i < n ==> (KeyCmp(Contents(a)[i], s, p, id) <= 0 <==> i < lo)
  {
    lo := 0;
    var hi := n;
    ghost var ram := Contents(a);
    while lo < hi
      invariant lo <= hi <= n
      invariant forall i :: 0 <= i < lo ==> KeyCmp(ram[i], s, p, id) <= 0
      invariant forall i :: hi <= i < n ==> KeyCmp(ram[i], s, p, id) > 0
    {
      var mid := lo + (hi - lo) / 2;
      forall i, j | 0 <= i <= j < n ensures KeyCmp(ram[j], s, p, id) <= 0 ==> KeyCmp(ram[i], s, p, id) <= 0 {
        KeyCmpMonotone(ram, i, j, s, p, id);
      }
      if TripleCmp(a[mid].sub, a[mid].pub, a[mid].id, s, p, id) <= 0 {
        lo := mid + 1;
      } else {
        hi := mid;
      }
    }
  }

  /** _thread_reg_lower_forward; following a pointer reads the RAM table. */
  method LowerForward(ram: array<Entry>, a: array<nat>, n: nat, p: TaskId, id: U32) returns (lo: nat)
    requires n == a.Length && ForwardIndex(ram[..], a[..])
    ensures lo <= n
    ensures forall j :: 0 <= j < n ==> (PtrCmp(ram[..], a[j], p, id) < 0 <==> j < lo)
  {
    lo := 0;
    var hi := n;
    ghost var rows, ptrs := ram[..], a[..];
    while lo < hi
      invariant lo <= hi <= n
      invariant forall j :: 0 <= j < lo ==> PtrCmp(rows, ptrs[j], p, id) < 0
      invariant forall j :: hi <= j < n ==> PtrCmp(rows, ptrs[j], p, id) >= 0
    {
      var mid := lo + (hi - lo) / 2;
      assert ptrs[mid] < |rows|;
      forall i, j | 0 <= i <= j < n ensures PtrCmp(rows, ptrs[j], p, id) < 0 ==> PtrCmp(rows, ptrs[i], p, id) < 0 {
        PtrCmpMonotone(rows, ptrs, i, j, p, id);
      }
      if PairCmp(ram[a[mid]].pub, ram[a[mid]].id, p, id) < 0 {
        lo := mid + 1;
      } else {
        hi := mid;
      }
    }
  }

  /** _thread_reg_upper_forward. */
  method UpperForward(ram: array<Entry>, a: array<nat>, n: nat, p: TaskId, id: U32) returns (lo: nat)
    requires n == a.Length && ForwardIndex(ram[..], a[..])
    ensures lo <= n
    ensures forall j :: 0 <= j < n ==> (PtrCmp(ram[..], a[j], p, id) <= 0 <==> j < lo)
  {
    lo := 0;
    var hi := n;
    ghost var rows, ptrs := ram[..], a[..];
    while lo < hi
      invariant lo <= hi <= n
      invariant forall j :: 0 <= j < lo ==> PtrCmp(rows, ptrs[j], p, id) <= 0
      invariant forall j :: hi <= j < n ==> PtrCmp(rows, ptrs[j], p, id) > 0
    {
      var mid := lo + (hi - lo) / 2;
      assert ptrs[mid] < |rows|;
      forall i, j | 0 <= i <= j < n ensures PtrCmp(rows, ptrs[j], p, id) <= 0 ==> PtrCmp(rows, ptrs[i], p, id) <= 0 {
        PtrCmpMonotone(rows, ptrs, i, j, p, id);
      }
      if PairCmp(ram[a[mid]].pub, ram[a[mid]].id, p, id) <= 0 {
        lo := mid + 1;
      } else {
        hi := mid;
      }
    }
  }

  /** The lower and upper direct searches bracket exactly the rows of the triple. */
  method EqualRangeDirect(a: array?<Entry>, n: nat, s: TaskId, p: TaskId, id: U32) returns (lo: nat, hi: nat)
    requires n == |Contents(a)| && DirectSorted(Contents(a))
    ensures lo <= hi <= n
    ensures forall i :: 0 <= i < n ==> (OnTriple(Contents(a)[i], s, p, id) <==> lo <= i < hi)
    ensures Contents(a)[lo..hi] == TripleRows(Contents(a), s, p, id)
  {
    lo := LowerDirect(a, n, s, p, id);
    hi := UpperDirect(a, n, s, p, id);
    ghost var ram := Contents(a);
    assert lo > 0 ==> KeyCmp(ram[lo - 1], s, p, id) < 0;
    FilterIsSlice(ram, (e: Entry) => OnTriple(e, s, p, id), lo, hi);
  }

  /** The lower and upper forward searches bracket exactly the pointers to rows of the pair. */
  method EqualRangeForward(ram: array<Entry>, a: array<nat>, n: nat, p: TaskId, id: U32) returns (lo: nat, hi: nat)
    requires n == a.Length && ForwardIndex(ram[..], a[..])
    ensures lo <= hi <= n
    ensures a[lo..hi] == PairPointers(ram[..], a[..], p, id)
  {
    lo := LowerForward(ram, a, n, p, id);
    hi := UpperForward(ram, a, n, p, id);
    ghost var rows, ptrs := ram[..], a[..];
    assert lo > 0 ==> PtrCmp(rows, ptrs[lo - 1], p, id) < 0;
    PointerSlice(rows, ptrs, p, id, lo, hi);
  }

  lemma PointerSlice(rows: seq<Entry>, ptrs: seq<nat>, p: TaskId, id: U32, lo: nat, hi: nat)
    requires lo <= hi <= |ptrs|
    requires forall j :: 0 <= j < |ptrs| ==> (PtrCmp(rows, ptrs[j], p, id) < 0 <==> j < lo)
    requires forall j :: 0 <= j < |ptrs| ==> (PtrCmp(rows, ptrs[j], p, id) <= 0 <==> j < hi)
    ensures ptrs[lo..hi] == PairPointers(rows, ptrs, p, id)
  {
    var sel := (i: nat) => OnPair(Deref(rows, i), p, id);
    forall j | 0 <= j < |ptrs| ensures sel(ptrs[j]) <==> lo <= j < hi {
      assert sel(ptrs[j]) <==> PtrCmp(rows, ptrs[j], p, id) == 0;
    }
    FilterIsSlice(ptrs, sel, lo, hi);
  }

  /** The RAM copy of the ROM table, sorted by triple. */
  method CopyAndSort(rom: seq<Entry>) returns (table: array<Entry>)
    ensures fresh(table) && multiset(table[..]) == multiset(rom) && DirectSorted(table[..])
  {
    var blank := Entry(0, 0, 0, None, false);
    table := new Entry[|rom|](_ => blank);
    for i := 0 to |rom|
      invariant table[..i] == rom[..i]
    {
      table[i] := Entry(rom[i].sub, rom[i].pub, rom[i].id, rom[i].cb, rom[i].active);
    }
    assert table[..] == rom;
    OrdersAreTotal();
    Q.QSort(table, CmpDirect);
  }

  method CountCrossTask(ram: seq<Entry>) returns (nf: nat)
    ensures nf == Count(ram, CrossTask)
  {
    nf := 0;
    for i := 0 to |ram|
      invariant nf + Count(ram[i..], CrossTask) == Count(ram, CrossTask)
    {
      CountNext(ram, i, CrossTask);
      if ram[i].sub != ram[i].pub {
        nf := nf + 1;
      }
    }
  }

  /** The positions of the cross-task rows among the first `n`, in table order. */
  function CrossPositions(ram: seq<Entry>, n: nat): seq<nat>
    requires n <= |ram|
  {
    if n == 0 then []
    else CrossPositions(ram, n - 1) + (if CrossTask(ram[n - 1]) then [n - 1] else [])
  }

  /** The pointer array: one pointer per cross-task row, sorted in forward order. */
  method BuildForward(ram: seq<Entry>, nf: nat) returns (ptrs: array<nat>)
    requires nf == Count(ram, CrossTask)
    ensures fresh(ptrs) && ptrs.Length == nf && ForwardIndex(ram, ptrs[..])
  {
    ptrs := new nat[nf](_ => 0);
    var w := 0;
    for i := 0 to |ram|
      invariant w + Count(ram[i..], CrossTask) == nf
      invariant ptrs[..w] == CrossPositions(ram, i)
    {
      CountNext(ram, i, CrossTask);
      if ram[i].sub != ram[i].pub {
        ptrs[w] := i;
        w := w + 1;
        assert ptrs[..w] == ptrs[..w - 1] + [i];
      }
    }
    assert ptrs[..w] == ptrs[..];
    PositionsCollected(ram, |ram|);
    SortPointers(ram, ptrs);
  }

  /** `ptrs` lists the positions of the cross-task rows, once each. */
  ghost predicate Collected(ram: seq<Entry>, ptrs: seq<nat>) {
    && (forall j :: 0 <= j < |ptrs| ==> ptrs[j] < |ram| && CrossTask(ram[ptrs[j]]))
    && (forall j, k :: 0 <= j < k < |ptrs| ==> ptrs[j] != ptrs[k])
    && (forall k :: 0 <= k < |ram| && CrossTask(ram[k]) ==> k in ptrs)
  }

  lemma {:induction false} PositionsCollected(ram: seq<Entry>, n: nat)
    requires n <= |ram|
    ensures forall j :: 0 <= j < |CrossPositions(ram, n)| ==> CrossPositions(ram, n)[j] < n
    ensures Collected(ram[..n], CrossPositions(ram, n))
    ensures n == |ram| ==> Collected(ram, CrossPositions(ram, n))
  {
    if n == 0 {
    } else {
      var ptrs, next := CrossPositions(ram, n - 1), CrossPositions(ram, n);
      PositionsCollected(ram, n - 1);
      forall j | 0 <= j < |ptrs| ensures ram[..n][ptrs[j]] == ram[..n - 1][ptrs[j]] {
      }
      forall k | 0 <= k < n && CrossTask(ram[..n][k]) ensures k in next {
        if k < n - 1 { assert CrossTask(ram[..n - 1][k]); }
      }
    }
    assert ram[..|ram|] == ram;
  }

  method SortPointers(ram: seq<Entry>, ptrs: array<nat>)
    requires Collected(ram, ptrs[..])
    modifies ptrs
    ensures ForwardIndex(ram, ptrs[..])
  {
    ghost var built := ptrs[..];
    var cmp := (x: nat, y: nat) => CmpForward(Deref(ram, x), Deref(ram, y));
    assert Q.TotalPreorder(cmp) by { OrdersAreTotal(); }
    Q.QSort(ptrs, cmp);
    ghost var sorted := ptrs[..];
    CollectedStays(ram, built, sorted);
    forall i, j | 0 <= i < j < |sorted| ensures CmpForward(Deref(ram, sorted[i]), Deref(ram, sorted[j])) <= 0 {
      assert cmp(sorted[i], sorted[j]) <= 0;
    }
  }

  /** Reordering the pointers keeps what they reference. */
  lemma CollectedStays(ram: seq<Entry>, built: seq<nat>, sorted: seq<nat>)
    requires Collected(ram, built) && multiset(sorted) == multiset(built)
    ensures Collected(ram, sorted)
  {
    forall k ensures k in built <==> k in sorted {
      assert k in multiset(built) <==> k in multiset(sorted);
    }
    forall j | 0 <= j < |sorted| ensures sorted[j] < |ram| && CrossTask(ram[sorted[j]]) {
      assert sorted[j] in sorted && sorted[j] in built;
    }
    forall j, k | 0 <= j < k < |sorted| ensures sorted[j] != sorted[k] {
      if sorted[j] == sorted[k] {
        Without(sorted, j);
        assert (sorted[..j] + sorted[j + 1..])[k - 1] == sorted[k];
        AtMostOnce(built, sorted[j]);
        assert false;
      }
    }
  }

  lemma AtMostOnce(a: seq<nat>, x: nat)
    requires forall j, k :: 0 <= j < k < |a| ==> a[j] != a[k]
    ensures multiset(a)[x] <= 1
  {
    if j :| 0 <= j < |a| && a[j] == x {
      Without(a, j);
      assert x !in a[..j] + a[j + 1..];
    }
  }
}
