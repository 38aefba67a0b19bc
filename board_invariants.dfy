/** What the store's operations keep and what they break. The invariant the
    board is meant to satisfy is `WellFormed`: unique ids, every task in
    exactly one stage, once, no stage holding an id that is not a task, and
    the stages in ascending `order`. */
module BoardInvariants {
  import opened TaskTypes
  import opened Membership
  import opened StageOrder
  import opened BoardOps

  /** The board invariant: the membership invariant of `Consistent`, and
      stages in ascending `order`. */
  ghost predicate WellFormed(b: Board)
  {
    Consistent(b) && Sorted(b.stages)
  }

  /** A stage id that occurs once names exactly one position. */
  lemma OnlyStageWithId(stages: seq<StageType>, i: nat)
    requires Distinct(StageIds(stages)) && i < |stages|
    ensures forall k :: 0 <= k < |stages| && k != i ==> stages[k].id != stages[i].id
  {
    forall k | 0 <= k < |stages| && k != i
      ensures stages[k].id != stages[i].id
    {
      assert StageIds(stages)[k] == stages[k].id && StageIds(stages)[i] == stages[i].id;
      if stages[k].id == stages[i].id {
        DistinctPositions(StageIds(stages), i, k);
      }
    }
  }

  /** The position of a stage id that occurs in the list. */
  lemma StagePosition(stages: seq<StageType>, id: string) returns (i: nat)
    requires id in StageIds(stages)
    ensures i < |stages| && stages[i].id == id
  {
    var k :| 0 <= k < |StageIds(stages)| && StageIds(stages)[k] == id;
    i := k;
  }

  /** Under the invariant every id held by a stage is a task's id. */
  lemma HeldIdIsTask(b: Board, i: nat, x: string)
    requires Consistent(b) && i < |b.stages| && x in b.stages[i].taskIds
    ensures x in TaskIds(b.tasks)
  {
    CountAtMostOccurrences(b.stages, i, x);
  }

  /** Under the invariant the ids the stages hold are exactly the task ids. */
  lemma WellFormedHoldsExactlyTasks(b: Board)
    requires WellFormed(b)
    ensures forall x :: x in TaskIds(b.tasks) <==> exists i :: 0 <= i < |b.stages| && x in b.stages[i].taskIds
  {
    forall x ensures x in TaskIds(b.tasks) <==> exists i :: 0 <= i < |b.stages| && x in b.stages[i].taskIds {
      if x in TaskIds(b.tasks) {
        var i := ConsistentHome(b, x);
      } else if exists i :: 0 <= i < |b.stages| && x in b.stages[i].taskIds {
        var i :| 0 <= i < |b.stages| && x in b.stages[i].taskIds;
        HeldIdIsTask(b, i, x);
      }
    }
  }

  /** Stage lists that agree position by position on everything but `taskIds`
      keep the stage ids and the ordering. */
  lemma SameShape(a: seq<StageType>, b: seq<StageType>)
    requires |a| == |b|
    requires forall i :: 0 <= i < |a| ==> b[i] == a[i].(taskIds := b[i].taskIds)
    ensures StageIds(b) == StageIds(a)
    ensures Sorted(a) ==> Sorted(b)
  {
  }

  // ------------------------------------------------------------- createTask

  /** Creating a task with a fresh id in an existing stage keeps the invariant,
      and the new id ends up last in that stage. */
  lemma CreateTaskKeepsWellFormed(b: Board, stageId: string, data: TaskData, newId: string, now: nat)
    requires WellFormed(b)
    requires stageId in StageIds(b.stages) && newId !in TaskIds(b.tasks)
    ensures var r := CreateTask(b, stageId, data, newId, now);
      WellFormed(r) && newId in TaskIds(r.tasks) &&
      forall i :: 0 <= i < |r.stages| && r.stages[i].id == stageId ==>
        r.stages[i].taskIds == b.stages[i].taskIds + [newId]
  {
    var r := CreateTask(b, stageId, data, newId, now);
    var i := StagePosition(b.stages, stageId);
    OnlyStageWithId(b.stages, i);
    SameShape(b.stages, r.stages);
    TaskIdsAppend(b.tasks, [NewTask(data, newId, now)]);
    assert TaskIds(r.tasks) == TaskIds(b.tasks) + [newId];
    forall y ensures Count(TaskIds(r.tasks), y) == Count(TaskIds(b.tasks), y) + (if y == newId then 1 else 0) {
      CountAppend(TaskIds(b.tasks), [newId], y);
      CountSingle(newId, y);
    }
    forall x ensures Occurrences(r.stages, x) == (if x in TaskIds(r.tasks) then 1 else 0) {
      OccurrencesAt(b.stages, r.stages, i, x);
      CountAppend(b.stages[i].taskIds, [newId], x);
      CountSingle(newId, x);
    }
  }

  /** Creating a task in a stage that does not exist still adds the task, but
      no stage holds it: the invariant is lost. */
  lemma CreateTaskUnknownStageOrphans(b: Board, stageId: string, data: TaskData, newId: string, now: nat)
    requires Consistent(b)
    requires stageId !in StageIds(b.stages) && newId !in TaskIds(b.tasks)
    ensures var r := CreateTask(b, stageId, data, newId, now);
      newId in TaskIds(r.tasks) && Occurrences(r.stages, newId) == 0 && !Consistent(r)
  {
    var r := CreateTask(b, stageId, data, newId, now);
    TaskIdsAppend(b.tasks, [NewTask(data, newId, now)]);
    assert TaskIds(r.tasks)[|b.tasks|] == newId;
  }

  // ------------------------------------------------------------ createStage

  /** Creating a stage with a fresh id keeps the invariant, whatever its order. */
  lemma CreateStageKeepsWellFormed(b: Board, data: StageData, newId: string)
    requires Consistent(b) && newId !in StageIds(b.stages)
    ensures WellFormed(CreateStage(b, data, newId))
  {
    var added := NewStage(data, newId, b.id);
    var s := b.stages + [added];
    var r := CreateStage(b, data, newId);
    assert r.stages == SortByOrder(s);
    StageIdsAppend(b.stages, [added]);
    assert StageIds([added]) == [newId];
    forall y ensures Count(StageIds(r.stages), y) <= 1 {
      SortByOrderStageIds(s, y);
      CountAppend(StageIds(b.stages), [newId], y);
      CountSingle(newId, y);
    }
    forall x ensures Occurrences(r.stages, x) == Occurrences(b.stages, x) {
      SortByOrderOccurrences(s, x);
      OccurrencesAppend(b.stages, [added], x);
      assert [added][1..] == [];
    }
  }

  // ------------------------------------------------------------- updateTask

  /** An update that does not change the id keeps the invariant. */
  lemma UpdateTaskKeepsWellFormed(b: Board, taskId: string, u: TaskUpdate, now: nat)
    requires WellFormed(b) && u.id.None?
    ensures WellFormed(UpdateTask(b, taskId, u, now))
  {
  }

  /** An update with no fields only refreshes the named task's `updatedAt`. */
  lemma UpdateTaskNoChanges(b: Board, taskId: string, now: nat)
    ensures var r := UpdateTask(b, taskId, NoChanges, now);
      r.stages == b.stages && |r.tasks| == |b.tasks| &&
      forall j :: 0 <= j < |b.tasks| ==>
        r.tasks[j] == b.tasks[j].(updatedAt := if b.tasks[j].id == taskId then now else b.tasks[j].updatedAt)
  {
  }

  /** Renaming a task through `updates.id` leaves its old id in its stage, so
      the invariant is lost. */
  lemma UpdateTaskRenameOrphans(b: Board, taskId: string, u: TaskUpdate, now: nat)
    requires Consistent(b) && taskId in TaskIds(b.tasks)
    requires u.id.Some? && u.id.value != taskId
    ensures var r := UpdateTask(b, taskId, u, now);
      taskId !in TaskIds(r.tasks) && Occurrences(r.stages, taskId) == 1 && !Consistent(r)
  {
    var r := UpdateTask(b, taskId, u, now);
    forall j | 0 <= j < |r.tasks| ensures TaskIds(r.tasks)[j] != taskId {
      assert TaskIds(r.tasks)[j] == r.tasks[j].id;
    }
  }

  // --------------------------------------------------------------- moveTask

  /** Moving a task held by stage `i` to a different stage `j` keeps the
      invariant: the task leaves `i` and is held once by `j`, at the end when
      no index is given. */
  lemma MoveTaskKeepsWellFormed(b: Board, taskId: string, i: nat, j: nat, newIndex: Option<int>, now: nat)
    requires WellFormed(b)
    requires i < |b.stages| && j < |b.stages| && i != j
    requires taskId in b.stages[i].taskIds
    ensures var r := MoveTask(b, taskId, b.stages[i].id, b.stages[j].id, newIndex, now);
      WellFormed(r) && taskId !in r.stages[i].taskIds && Count(r.stages[j].taskIds, taskId) == 1 &&
      (newIndex.None? ==> r.stages[j].taskIds == b.stages[j].taskIds + [taskId])
  {
    var r := MoveTask(b, taskId, b.stages[i].id, b.stages[j].id, newIndex, now);
    MoveTaskTwoStages(b, taskId, i, j, newIndex, now);
    SameShape(b.stages, r.stages);
    HeldIdIsTask(b, i, taskId);
    var home := ConsistentHome(b, taskId);
    assert home == i;
    TransferKeepsOccurrences(b.stages, r.stages, i, j, taskId, newIndex);
  }

  /** Taking the one copy of an id out of stage `i` and inserting it into
      stage `j`, with every other stage as it was, keeps every id's count. */
  lemma TransferKeepsOccurrences(a: seq<StageType>, c: seq<StageType>, i: nat, j: nat,
                                 taskId: string, newIndex: Option<int>)
    requires |a| == |c| && i < |a| && j < |a| && i != j
    requires forall k :: 0 <= k < |a| && k != i && k != j ==> c[k] == a[k]
    requires Count(a[i].taskIds, taskId) == 1
    requires c[i].taskIds == Without(a[i].taskIds, taskId)
    requires c[j].taskIds == InsertTaskId(a[j].taskIds, taskId, newIndex)
    ensures forall x :: Occurrences(c, x) == Occurrences(a, x)
  {
    forall x ensures Occurrences(c, x) == Occurrences(a, x) {
      OccurrencesAtTwo(a, c, i, j, x);
    }
  }

  /** With unique stage ids, a move between two stages changes those two and no other. */
  lemma MoveTaskTwoStages(b: Board, taskId: string, i: nat, j: nat, newIndex: Option<int>, now: nat)
    requires Distinct(StageIds(b.stages))
    requires i < |b.stages| && j < |b.stages| && i != j
    ensures var r := MoveTask(b, taskId, b.stages[i].id, b.stages[j].id, newIndex, now);
      r.stages[i].taskIds == Without(b.stages[i].taskIds, taskId) &&
      r.stages[j].taskIds == InsertTaskId(b.stages[j].taskIds, taskId, newIndex) &&
      forall k :: 0 <= k < |b.stages| && k != i && k != j ==> r.stages[k] == b.stages[k]
  {
    OnlyStageWithId(b.stages, i);
    OnlyStageWithId(b.stages, j);
  }

  /** Moving a task within its own stage only removes it: the first branch
      wins, the task stays in `tasks`, and no stage holds it any more. */
  lemma MoveTaskWithinStageOrphans(b: Board, taskId: string, i: nat, newIndex: Option<int>, now: nat)
    requires Consistent(b)
    requires i < |b.stages| && taskId in b.stages[i].taskIds
    ensures var r := MoveTask(b, taskId, b.stages[i].id, b.stages[i].id, newIndex, now);
      taskId in TaskIds(r.tasks) && Occurrences(r.stages, taskId) == 0 && !Consistent(r)
  {
    var r := MoveTask(b, taskId, b.stages[i].id, b.stages[i].id, newIndex, now);
    HeldIdIsTask(b, i, taskId);
    var home := ConsistentHome(b, taskId);
    assert TaskIds(r.tasks) == TaskIds(b.tasks);
    OccurrencesNone(r.stages, taskId);
  }

  /** Moving a task out of a stage that does not hold it leaves it where it
      was and adds it to the target as well: it is then held twice. */
  lemma MoveTaskFromNonHolderDuplicates(b: Board, taskId: string, i: nat, j: nat,
                                        newIndex: Option<int>, now: nat)
    requires Consistent(b) && taskId in TaskIds(b.tasks)
    requires i < |b.stages| && j < |b.stages| && i != j && taskId !in b.stages[i].taskIds
    ensures var r := MoveTask(b, taskId, b.stages[i].id, b.stages[j].id, newIndex, now);
      Occurrences(r.stages, taskId) == 2 && !Consistent(r)
  {
    var r := MoveTask(b, taskId, b.stages[i].id, b.stages[j].id, newIndex, now);
    MoveTaskTwoStages(b, taskId, i, j, newIndex, now);
    OccurrencesAtTwo(b.stages, r.stages, i, j, taskId);
  }

  /** Moving a held task to a stage id that no stage has filters it out of
      its stage and adds it nowhere: it stays in `tasks` but no stage holds it. */
  lemma MoveTaskToUnknownStageOrphans(b: Board, taskId: string, i: nat, toStageId: string,
                                      newIndex: Option<int>, now: nat)
    requires Consistent(b)
    requires i < |b.stages| && taskId in b.stages[i].taskIds && toStageId !in StageIds(b.stages)
    ensures var r := MoveTask(b, taskId, b.stages[i].id, toStageId, newIndex, now);
      taskId in TaskIds(r.tasks) && Occurrences(r.stages, taskId) == 0 && !Consistent(r)
  {
    var r := MoveTask(b, taskId, b.stages[i].id, toStageId, newIndex, now);
    HeldIdIsTask(b, i, taskId);
    var home := ConsistentHome(b, taskId);
    forall k | 0 <= k < |r.stages| ensures taskId !in r.stages[k].taskIds {
      assert StageIds(b.stages)[k] == b.stages[k].id;
    }
    OccurrencesNone(r.stages, taskId);
  }

  /** Moving an id that names no task into an existing stage leaves that
      stage holding an id with no task behind it. */
  lemma MoveUnknownTaskDangles(b: Board, taskId: string, fromStageId: string, j: nat,
                               newIndex: Option<int>, now: nat)
    requires Consistent(b) && taskId !in TaskIds(b.tasks)
    requires j < |b.stages| && b.stages[j].id != fromStageId
    ensures var r := MoveTask(b, taskId, fromStageId, b.stages[j].id, newIndex, now);
      taskId in r.stages[j].taskIds && taskId !in TaskIds(r.tasks) && !Consistent(r)
  {
    var r := MoveTask(b, taskId, fromStageId, b.stages[j].id, newIndex, now);
    CountAtMostOccurrences(r.stages, j, taskId);
  }

  // ------------------------------------------------------------- deleteTask

  /** Deleting a task keeps the invariant and leaves no trace of its id. */
  lemma DeleteTaskKeepsWellFormed(b: Board, taskId: string)
    requires WellFormed(b)
    ensures var r := DeleteTask(b, taskId);
      WellFormed(r) && taskId !in TaskIds(r.tasks) && Occurrences(r.stages, taskId) == 0
  {
    var r := DeleteTask(b, taskId);
    SameShape(b.stages, r.stages);
    assert Distinct(TaskIds(r.tasks)) by {
      forall y ensures Count(TaskIds(r.tasks), y) <= 1 {
        assert Count(TaskIds(b.tasks), y) <= 1;
      }
    }
    assert forall x :: x in TaskIds(r.tasks) <==> x != taskId && x in TaskIds(b.tasks) by {
      forall x ensures x in TaskIds(r.tasks) <==> x != taskId && x in TaskIds(b.tasks) {
        assert Count(TaskIds(r.tasks), x) == if x == taskId then 0 else Count(TaskIds(b.tasks), x);
      }
    }
    forall x ensures Occurrences(r.stages, x) == (if x in TaskIds(r.tasks) then 1 else 0) {
      if x == taskId {
        OccurrencesNone(r.stages, x);
      } else {
        OccurrencesSame(b.stages, r.stages, x);
      }
    }
  }

  // ------------------------------------------------------------ deleteStage

  /** Filtering out the only stage with an id removes exactly its share of
      every task id. */
  lemma {:induction false} WithoutStageOccurrences(stages: seq<StageType>, i: nat, x: string)
    requires i < |stages|
    requires forall k :: 0 <= k < |stages| && k != i ==> stages[k].id != stages[i].id
    ensures Occurrences(WithoutStage(stages, stages[i].id), x) + Count(stages[i].taskIds, x) ==
            Occurrences(stages, x)
  {
    var id := stages[i].id;
    if i == 0 {
      assert id !in StageIds(stages[1..]);
    } else {
      WithoutStageOccurrences(stages[1..], i - 1, x);
      var rest := WithoutStage(stages[1..], id);
      assert WithoutStage(stages, id) == [stages[0]] + rest;
      assert ([stages[0]] + rest)[1..] == rest;
    }
  }

  /** Filtering out a stage whose id occurs once removes one stage and keeps
      the other ids unique. */
  lemma WithoutStageDistinct(stages: seq<StageType>, i: nat)
    requires Distinct(StageIds(stages)) && i < |stages|
    ensures var remaining := WithoutStage(stages, stages[i].id);
      Distinct(StageIds(remaining)) && |remaining| == |stages| - 1
  {
  }

  /** Deleting one of several stages keeps the invariant: its tasks go to
      the end of the first remaining stage, and the tasks are untouched. */
  lemma DeleteStageKeepsWellFormed(b: Board, i: nat)
    requires WellFormed(b) && i < |b.stages| && |b.stages| > 1
    ensures var r := DeleteStage(b, b.stages[i].id);
      WellFormed(r) && b.stages[i].id !in StageIds(r.stages) && |r.stages| == |b.stages| - 1 &&
      r.stages[0].taskIds == WithoutStage(b.stages, b.stages[i].id)[0].taskIds + b.stages[i].taskIds
  {
    var id := b.stages[i].id;
    var r := DeleteStage(b, id);
    var remaining := WithoutStage(b.stages, id);
    OnlyStageWithId(b.stages, i);
    FindStageAt(b.stages, i);
    WithoutStageDistinct(b.stages, i);
    OnlyStageWithId(remaining, 0);
    assert r.stages == ReassignTasks(remaining, Some(b.stages[i]));
    WithoutStageSorted(b.stages, id);
    SameShape(remaining, r.stages);
    forall x ensures Occurrences(r.stages, x) == Occurrences(b.stages, x) {
      WithoutStageOccurrences(b.stages, i, x);
      OccurrencesAt(remaining, r.stages, 0, x);
      CountAppend(remaining[0].taskIds, b.stages[i].taskIds, x);
    }
  }

  /** Deleting the only stage empties the stage list and keeps every task:
      once there is a task, the invariant is lost. */
  lemma DeleteOnlyStageOrphans(b: Board)
    requires |b.stages| == 1
    ensures var r := DeleteStage(b, b.stages[0].id);
      r.stages == [] && r.tasks == b.tasks && (|b.tasks| > 0 ==> !Consistent(r))
  {
    var r := DeleteStage(b, b.stages[0].id);
    if |b.tasks| > 0 {
      var x := b.tasks[0].id;
      assert TaskIds(r.tasks)[0] == x;
      assert Occurrences(r.stages, x) == 0;
    }
  }

  // ---------------------------------------------------------- reorderStages

  /** Reordering keeps the invariant. */
  lemma ReorderStagesKeepsWellFormed(b: Board, stageId: string, newOrder: int)
    requires Consistent(b)
    ensures WellFormed(ReorderStages(b, stageId, newOrder))
  {
    var s := SetOrder(b.stages, stageId, newOrder);
    var r := ReorderStages(b, stageId, newOrder);
    assert r.stages == SortByOrder(s);
    forall y ensures Count(StageIds(r.stages), y) <= 1 {
      SortByOrderStageIds(s, y);
    }
    forall x ensures Occurrences(r.stages, x) == Occurrences(b.stages, x) {
      SortByOrderOccurrences(s, x);
      OccurrencesSame(b.stages, s, x);
    }
  }

  /** Reordering a stage that does not exist leaves a sorted board as it was. */
  lemma ReorderUnknownStage(b: Board, stageId: string, newOrder: int)
    requires Sorted(b.stages) && stageId !in StageIds(b.stages)
    ensures ReorderStages(b, stageId, newOrder) == b
  {
    var s := SetOrder(b.stages, stageId, newOrder);
    assert forall i :: 0 <= i < |b.stages| ==> StageIds(b.stages)[i] == b.stages[i].id;
    assert s == b.stages;
    SortByOrderOfSorted(b.stages);
  }

  // ---------------------------------------------------------------- getters

  /** Under the invariant a stage's tasks are exactly the tasks its ids name,
      in the stage's order: nothing is skipped. */
  lemma TasksByStageIdComplete(b: Board, i: nat)
    requires Consistent(b) && i < |b.stages|
    ensures TaskIds(TasksByStageId(b, b.stages[i].id)) == b.stages[i].taskIds
  {
    FindStageAt(b.stages, i);
    forall x | x in b.stages[i].taskIds
      ensures x in TaskIds(b.tasks)
    {
      HeldIdIsTask(b, i, x);
    }
    KnownIdsAll(b.stages[i].taskIds, TaskIds(b.tasks));
  }

  /** Under the invariant `getTaskById` finds every task by its own id. */
  lemma TaskByIdFinds(b: Board, j: nat)
    requires Consistent(b) && j < |b.tasks|
    ensures FindTask(b.tasks, b.tasks[j].id) == Some(b.tasks[j])
  {
    FindTaskAt(b.tasks, j);
  }
}
