/** Ordering of stages by their numeric `order`: the comparator
    `(a, b) => a.order - b.order` handed to `Array.prototype.sort`, which is a
    stable sort. `SortByOrder` is that sort on values; `SortStagesInPlace`
    is the same sort done in place on an array. */
module StageOrder {
  import opened TaskTypes
  import opened Membership

  ghost predicate Sorted(s: seq<StageType>)
  {
    forall i, j :: 0 <= i < j < |s| ==> s[i].order <= s[j].order
  }

  /** Puts `x` after the last stage of `s` whose order is not greater than its own. */
  function InsertByOrder(s: seq<StageType>, x: StageType): (r: seq<StageType>)
    ensures |r| == |s| + 1
  {
    if |s| == 0 || s[|s| - 1].order <= x.order then s + [x]
    else InsertByOrder(s[..|s| - 1], x) + [s[|s| - 1]]
  }

  /** Where `InsertByOrder` puts `x`: every stage before it was already before it,
      every stage after it has a strictly greater order. */
  lemma {:induction false} InsertByOrderSplit(s: seq<StageType>, x: StageType) returns (k: nat)
    ensures k <= |s| && InsertByOrder(s, x) == s[..k] + [x] + s[k..]
    ensures forall i :: k <= i < |s| ==> s[i].order > x.order
    ensures k > 0 ==> s[k - 1].order <= x.order
  {
    if |s| == 0 || s[|s| - 1].order <= x.order {
      k := |s|;
      assert s[..k] == s;
    } else {
      var init, last := s[..|s| - 1], s[|s| - 1];
      k := InsertByOrderSplit(init, x);
      calc {
        InsertByOrder(s, x);
        InsertByOrder(init, x) + [last];
        init[..k] + [x] + init[k..] + [last];
        { assert init[..k] == s[..k]; assert init[k..] + [last] == s[k..]; }
        s[..k] + [x] + s[k..];
      }
    }
  }

  /** The stable sort by ascending `order`. */
  function SortByOrder(s: seq<StageType>): (r: seq<StageType>)
    ensures |r| == |s|
  {
    if |s| == 0 then [] else InsertByOrder(SortByOrder(s[..|s| - 1]), s[|s| - 1])
  }

  lemma SortedAppend(a: seq<StageType>, b: seq<StageType>)
    requires Sorted(a) && Sorted(b)
    requires forall i, j :: 0 <= i < |a| && 0 <= j < |b| ==> a[i].order <= b[j].order
    ensures Sorted(a + b)
  {
  }

  /** Inserting into stages in ascending order keeps them in ascending order. */
  lemma InsertByOrderSorted(t: seq<StageType>, x: StageType)
    requires Sorted(t)
    ensures Sorted(InsertByOrder(t, x))
  {
    var k := InsertByOrderSplit(t, x);
    var before, after := t[..k], t[k..];
    assert forall i :: 0 <= i < |before| ==> before[i].order <= t[k - 1].order;
    SortedAppend(before, [x]);
    SortedAppend(before + [x], after);
  }

  lemma {:induction false} SortByOrderSorted(s: seq<StageType>)
    ensures Sorted(SortByOrder(s))
  {
    if |s| > 0 {
      SortByOrderSorted(s[..|s| - 1]);
      InsertByOrderSorted(SortByOrder(s[..|s| - 1]), s[|s| - 1]);
    }
  }

  /** The sort rearranges the stages: it neither drops nor duplicates one. */
  lemma {:induction false} SortByOrderPermutes(s: seq<StageType>)
    ensures multiset(SortByOrder(s)) == multiset(s)
  {
    if |s| > 0 {
      var init, x := s[..|s| - 1], s[|s| - 1];
      assert s == init + [x];
      var t := SortByOrder(init);
      SortByOrderPermutes(init);
      var k := InsertByOrderSplit(t, x);
      assert t == t[..k] + t[k..];
      assert multiset(t) == multiset(t[..k]) + multiset(t[k..]);
    }
  }

  /** The stages of `s` whose order is `k`, in the order they appear in `s`. */
  function WithOrder(s: seq<StageType>, k: int): seq<StageType>
  {
    if |s| == 0 then [] else (if s[0].order == k then [s[0]] else []) + WithOrder(s[1..], k)
  }

  lemma {:induction false} WithOrderAppend(a: seq<StageType>, b: seq<StageType>, k: int)
    ensures WithOrder(a + b, k) == WithOrder(a, k) + WithOrder(b, k)
  {
    if |a| > 0 {
      assert (a + b)[1..] == a[1..] + b;
      WithOrderAppend(a[1..], b, k);
    } else {
      assert a + b == b;
    }
  }

  lemma {:induction false} WithOrderNone(s: seq<StageType>, k: int)
    requires forall i :: 0 <= i < |s| ==> s[i].order != k
    ensures WithOrder(s, k) == []
  {
    if |s| > 0 {
      WithOrderNone(s[1..], k);
    }
  }

  lemma WithOrderSingle(x: StageType, k: int)
    ensures WithOrder([x], k) == if x.order == k then [x] else []
  {
  }

  /** Inserting `x` adds it to the end of the stages of its own order and
      leaves the stages of every other order as they were. */
  lemma WithOrderInsert(t: seq<StageType>, x: StageType, k: int)
    ensures WithOrder(InsertByOrder(t, x), k) == WithOrder(t, k) + WithOrder([x], k)
  {
    var m := InsertByOrderSplit(t, x);
    var before, after := t[..m], t[m..];
    assert t == before + after;
    if x.order == k {
      WithOrderNone(after, k);
    }
    WithOrderSplice(before, x, after, k);
  }

  lemma WithOrderSplice(before: seq<StageType>, x: StageType, after: seq<StageType>, k: int)
    requires x.order == k ==> WithOrder(after, k) == []
    ensures WithOrder(before + [x] + after, k) == WithOrder(before + after, k) + WithOrder([x], k)
  {
    var wb, wx, wa := WithOrder(before, k), WithOrder([x], k), WithOrder(after, k);
    WithOrderAppend(before, after, k);
    WithOrderAppend(before + [x], after, k);
    WithOrderAppend(before, [x], k);
    if x.order != k {
      WithOrderSingle(x, k);
      assert wx == [];
    }
    assert wb + wx + wa == wb + wa + wx;
  }

  /** Stability: stages with equal `order` keep their relative positions. */
  lemma {:induction false} SortByOrderStable(s: seq<StageType>, k: int)
    ensures WithOrder(SortByOrder(s), k) == WithOrder(s, k)
  {
    if |s| > 0 {
      var init, x := s[..|s| - 1], s[|s| - 1];
      assert s == init + [x];
      WithOrderAppend(init, [x], k);
      SortByOrderStable(init, k);
      WithOrderInsert(SortByOrder(init), x, k);
    }
  }

  /** Sorting stages that are already in ascending order changes nothing. */
  lemma {:induction false} SortByOrderOfSorted(s: seq<StageType>)
    requires Sorted(s)
    ensures SortByOrder(s) == s
  {
    if |s| > 0 {
      var init := s[..|s| - 1];
      SortByOrderOfSorted(init);
      assert init + [s[|s| - 1]] == s;
    }
  }

  /** Sorting keeps, for every id, how often the stages hold it. */
  lemma {:induction false} SortByOrderOccurrences(s: seq<StageType>, x: string)
    ensures Occurrences(SortByOrder(s), x) == Occurrences(s, x)
  {
    if |s| > 0 {
      var init, y := s[..|s| - 1], s[|s| - 1];
      assert s == init + [y];
      OccurrencesAppend(init, [y], x);
      var t := SortByOrder(init);
      SortByOrderOccurrences(init, x);
      var k := InsertByOrderSplit(t, y);
      assert t == t[..k] + t[k..];
      OccurrencesAppend(t[..k] + [y], t[k..], x);
      OccurrencesAppend(t[..k], [y], x);
      OccurrencesAppend(t[..k], t[k..], x);
    }
  }

  /** Sorting keeps, for every id, how many stages carry it. */
  lemma {:induction false} SortByOrderStageIds(s: seq<StageType>, x: string)
    ensures Count(StageIds(SortByOrder(s)), x) == Count(StageIds(s), x)
  {
    if |s| > 0 {
      var init, y := s[..|s| - 1], s[|s| - 1];
      assert s == init + [y];
      StageIdsAppend(init, [y]);
      CountAppend(StageIds(init), StageIds([y]), x);
      var t := SortByOrder(init);
      SortByOrderStageIds(init, x);
      var k := InsertByOrderSplit(t, y);
      assert t == t[..k] + t[k..];
      StageIdsAppend(t[..k], t[k..]);
      CountAppend(StageIds(t[..k]), StageIds(t[k..]), x);
      StageIdsAppend(t[..k] + [y], t[k..]);
      StageIdsAppend(t[..k], [y]);
      CountAppend(StageIds(t[..k] + [y]), StageIds(t[k..]), x);
      CountAppend(StageIds(t[..k]), StageIds([y]), x);
    }
  }

  /** What the in-place insertion leaves behind: `t` with `x` put at position `j`,
      where every stage it moved past has a greater order and the one before it
      (if any) does not, is exactly `InsertByOrder(t, x)`. */
  lemma InsertedAt(r: seq<StageType>, t: seq<StageType>, x: StageType, j: nat)
    requires j <= |t| && |r| == |t| + 1 && r[j] == x
    requires forall m :: 0 <= m < j ==> r[m] == t[m]
    requires forall m :: j < m < |r| ==> r[m] == t[m - 1]
    requires forall m :: j <= m < |t| ==> t[m].order > x.order
    requires j == 0 || t[j - 1].order <= x.order
    ensures r == InsertByOrder(t, x)
  {
    var k := InsertByOrderSplit(t, x);
    assert k == j;
    assert r == t[..k] + [x] + t[k..];
  }

  lemma SortByOrderPrefix(s: seq<StageType>, i: nat)
    requires i < |s|
    ensures SortByOrder(s[..i + 1]) == InsertByOrder(SortByOrder(s[..i]), s[i])
  {
    assert s[..i + 1][..i] == s[..i];
  }

  /** Moves the stage at position `i` left past the stages of greater order
      before it, leaving everything after `i` untouched. */
  method InsertInPlace(a: array<StageType>, i: nat)
    requires i < a.Length
    modifies a
    ensures a[..i + 1] == InsertByOrder(old(a[..i]), old(a[i]))
    ensures forall m :: i < m < a.Length ==> a[m] == old(a[m])
  {
    ghost var t := a[..i];
    var x := a[i];
    var j := i;
    while j > 0 && a[j - 1].order > x.order
      invariant j <= i
      invariant forall m :: 0 <= m < j ==> a[m] == t[m]
      invariant forall m :: j < m <= i ==> a[m] == t[m - 1]
      invariant forall m :: j <= m < i ==> t[m].order > x.order
      invariant forall m :: i < m < a.Length ==> a[m] == old(a[m])
    {
      a[j] := a[j - 1];
      j := j - 1;
    }
    a[j] := x;
    InsertedAt(a[..i + 1], t, x, j);
  }

  /** `stages.sort((a, b) => a.order - b.order)` done in place: an insertion
      sort, stage by stage from the left. */
  method SortStagesInPlace(a: array<StageType>)
    modifies a
    ensures a[..] == SortByOrder(old(a[..]))
  {
    ghost var s := a[..];
    var i := 0;
    while i < a.Length
      invariant 0 <= i <= a.Length
      invariant a[..i] == SortByOrder(s[..i])
      invariant forall m :: i <= m < a.Length ==> a[m] == s[m]
    {
      InsertInPlace(a, i);
      SortByOrderPrefix(s, i);
      i := i + 1;
    }
    assert s[..a.Length] == s;
  }
}
