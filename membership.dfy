/** How often an id occurs in a list of ids and across the stages of a board,
    the `filter(id => id !== x)` used by the store, and the board invariant
    built on them: every task sits in exactly one stage, once. */
module Membership {
  import opened TaskTypes

  /** Number of occurrences of `x` in `ids`. */
  function Count(ids: seq<string>, x: string): (n: nat)
    ensures n <= |ids|
    ensures n == 0 <==> x !in ids
  {
    if |ids| == 0 then 0 else (if ids[0] == x then 1 else 0) + Count(ids[1..], x)
  }

  lemma {:induction false} CountAppend(a: seq<string>, b: seq<string>, x: string)
    ensures Count(a + b, x) == Count(a, x) + Count(b, x)
  {
    if |a| > 0 {
      assert (a + b)[1..] == a[1..] + b;
      CountAppend(a[1..], b, x);
    } else {
      assert a + b == b;
    }
  }

  lemma CountSingle(a: string, x: string)
    ensures Count([a], x) == if a == x then 1 else 0
  {
  }

  /** Two different positions holding the same id make it occur twice. */
  lemma {:induction false} CountTwoPositions(ids: seq<string>, i: nat, j: nat)
    requires i < j < |ids| && ids[i] == ids[j]
    ensures Count(ids, ids[i]) >= 2
  {
    if i == 0 {
      assert ids[1..][j - 1] == ids[j];
    } else {
      CountTwoPositions(ids[1..], i - 1, j - 1);
    }
  }

  /** `s` keeps some of the elements of `t`, in the order they have in `t`. */
  ghost predicate Subsequence<T>(s: seq<T>, t: seq<T>)
    decreases |s| + |t|
  {
    |s| == 0 ||
    (|t| > 0 && ((s[0] == t[0] && Subsequence(s[1..], t[1..])) || Subsequence(s, t[1..])))
  }

  /** `ids.filter(id => id !== x)`: every occurrence of `x` goes, every other
      id keeps its number of occurrences and its relative order. */
  function Without(ids: seq<string>, x: string): (r: seq<string>)
    ensures Count(r, x) == 0
    ensures forall y :: y != x ==> Count(r, y) == Count(ids, y)
    ensures |r| == |ids| - Count(ids, x)
    ensures Subsequence(r, ids)
  {
    if |ids| == 0 then []
    else
      var rest := Without(ids[1..], x);
      if ids[0] == x then rest
      else
        assert ([ids[0]] + rest)[1..] == rest;
        [ids[0]] + rest
  }

  /** No id occurs twice. */
  ghost predicate Distinct(ids: seq<string>)
  {
    forall x :: Count(ids, x) <= 1
  }

  lemma DistinctPositions(ids: seq<string>, i: nat, j: nat)
    requires Distinct(ids)
    requires i < |ids| && j < |ids| && ids[i] == ids[j]
    ensures i == j
  {
    if i < j {
      CountTwoPositions(ids, i, j);
    } else if j < i {
      CountTwoPositions(ids, j, i);
    }
  }

  /** Total number of occurrences of `x` in the `taskIds` of all stages. */
  function Occurrences(stages: seq<StageType>, x: string): nat
  {
    if |stages| == 0 then 0 else Count(stages[0].taskIds, x) + Occurrences(stages[1..], x)
  }

  lemma {:induction false} OccurrencesAppend(a: seq<StageType>, b: seq<StageType>, x: string)
    ensures Occurrences(a + b, x) == Occurrences(a, x) + Occurrences(b, x)
  {
    if |a| > 0 {
      assert (a + b)[1..] == a[1..] + b;
      OccurrencesAppend(a[1..], b, x);
    } else {
      assert a + b == b;
    }
  }

  /** Stage lists whose stages agree, position by position, on how often they hold `x`. */
  lemma {:induction false} OccurrencesSame(a: seq<StageType>, b: seq<StageType>, x: string)
    requires |a| == |b|
    requires forall k :: 0 <= k < |a| ==> Count(a[k].taskIds, x) == Count(b[k].taskIds, x)
    ensures Occurrences(a, x) == Occurrences(b, x)
  {
    if |a| > 0 {
      OccurrencesSame(a[1..], b[1..], x);
    }
  }

  /** No stage holding `x` means no occurrence at all. */
  lemma {:induction false} OccurrencesNone(stages: seq<StageType>, x: string)
    requires forall k :: 0 <= k < |stages| ==> x !in stages[k].taskIds
    ensures Occurrences(stages, x) == 0
  {
    if |stages| > 0 {
      OccurrencesNone(stages[1..], x);
    }
  }

  /** Changing the stage at position `i` only changes that stage's share of the total. */
  lemma {:induction false} OccurrencesAt(a: seq<StageType>, b: seq<StageType>, i: nat, x: string)
    requires |a| == |b| && i < |a|
    requires forall k :: 0 <= k < |a| && k != i ==> Count(a[k].taskIds, x) == Count(b[k].taskIds, x)
    ensures Occurrences(b, x) + Count(a[i].taskIds, x) == Occurrences(a, x) + Count(b[i].taskIds, x)
  {
    if i == 0 {
      OccurrencesSame(a[1..], b[1..], x);
    } else {
      OccurrencesAt(a[1..], b[1..], i - 1, x);
    }
  }

  /** Changing the stages at positions `i` and `j` only changes their shares of the total. */
  lemma OccurrencesAtTwo(a: seq<StageType>, b: seq<StageType>, i: nat, j: nat, x: string)
    requires |a| == |b| && i < |a| && j < |a| && i != j
    requires forall k :: 0 <= k < |a| && k != i && k != j ==> a[k] == b[k]
    ensures Occurrences(b, x) + Count(a[i].taskIds, x) + Count(a[j].taskIds, x) ==
            Occurrences(a, x) + Count(b[i].taskIds, x) + Count(b[j].taskIds, x)
  {
    var mid := a[i := b[i]];
    OccurrencesAt(a, mid, i, x);
    OccurrencesAt(mid, b, j, x);
  }

  /** One stage holds no more of `x` than all stages together. */
  lemma {:induction false} CountAtMostOccurrences(stages: seq<StageType>, i: nat, x: string)
    requires i < |stages|
    ensures Count(stages[i].taskIds, x) <= Occurrences(stages, x)
  {
    if i > 0 {
      CountAtMostOccurrences(stages[1..], i - 1, x);
    }
  }

  /** Two different stages together hold no more of `x` than all stages. */
  lemma CountPairAtMostOccurrences(stages: seq<StageType>, i: nat, j: nat, x: string)
    requires i < |stages| && j < |stages| && i != j
    ensures Count(stages[i].taskIds, x) + Count(stages[j].taskIds, x) <= Occurrences(stages, x)
  {
    var emptied := stages[i := stages[i].(taskIds := [])];
    OccurrencesAt(stages, emptied, i, x);
    CountAtMostOccurrences(emptied, j, x);
  }

  /** The board invariant: task ids and stage ids are unique, every task id
      occurs exactly once across all stages, and every id a stage holds is a task. */
  ghost predicate Consistent(b: Board)
  {
    Distinct(TaskIds(b.tasks)) && Distinct(StageIds(b.stages)) &&
    forall x :: Occurrences(b.stages, x) == (if x in TaskIds(b.tasks) then 1 else 0)
  }

  /** Under the invariant each task sits in exactly one stage, once, and in no other. */
  lemma ConsistentHome(b: Board, x: string) returns (i: nat)
    requires Consistent(b) && x in TaskIds(b.tasks)
    ensures i < |b.stages| && Count(b.stages[i].taskIds, x) == 1
    ensures forall j :: 0 <= j < |b.stages| && j != i ==> x !in b.stages[j].taskIds
  {
    i := FindHome(b.stages, x);
    CountAtMostOccurrences(b.stages, i, x);
    forall j | 0 <= j < |b.stages| && j != i
      ensures x !in b.stages[j].taskIds
    {
      CountPairAtMostOccurrences(b.stages, i, j, x);
    }
  }

  /** A stage holding `x`, when `x` occurs at all. */
  lemma {:induction false} FindHome(stages: seq<StageType>, x: string) returns (i: nat)
    requires Occurrences(stages, x) > 0
    ensures i < |stages| && x in stages[i].taskIds
  {
    if x in stages[0].taskIds {
      i := 0;
    } else {
      var k := FindHome(stages[1..], x);
      i := k + 1;
    }
  }

  /** Under the invariant no stage holds the same task id twice. */
  lemma ConsistentNoDuplicates(b: Board, i: nat, p: nat, q: nat)
    requires Consistent(b)
    requires i < |b.stages| && p < q < |b.stages[i].taskIds|
    ensures b.stages[i].taskIds[p] != b.stages[i].taskIds[q]
  {
    var ids := b.stages[i].taskIds;
    if ids[p] == ids[q] {
      CountTwoPositions(ids, p, q);
      CountAtMostOccurrences(b.stages, i, ids[p]);
    }
  }
}
