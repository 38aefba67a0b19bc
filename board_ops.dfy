/** The new-board computations of the `useTaskBoard` hook
    (src/hooks/useTaskBoard.ts): each operation takes the previous board and
    returns the next one, as the callbacks passed to `setBoard` do. The fresh
    id that the hook builds from `Date.now()` and `Math.random()`, and the
    `new Date()` timestamps, are parameters supplied by the caller. */
module BoardOps {
  import opened TaskTypes
  import opened Membership
  import opened StageOrder

  /** The owner written into every new task. */
  const CurrentUser: string := "current-user"

  /** The content a caller supplies for a new task: a task without its id,
      timestamps and owner. */
  datatype TaskData = TaskData(title: string, description: Option<string>, priority: Priority)

  /** The content a caller supplies for a new stage: a stage without its id,
      task ids and board id. */
  datatype StageData = StageData(title: string, order: int, color: Option<string>)

  /** A partial task: `None` is a field left out of the update. A present
      `description` may itself be undefined, which clears it. The update's own
      `updatedAt` is not modelled: the hook always overwrites it. */
  datatype TaskUpdate = TaskUpdate(
    id: Option<string>,
    title: Option<string>,
    description: Option<Option<string>>,
    priority: Option<Priority>,
    createdAt: Option<nat>,
    userId: Option<string>)

  const NoChanges: TaskUpdate := TaskUpdate(None, None, None, None, None, None)

  // ---------------------------------------------------------------- lookups

  /** `tasks.find(task => task.id === id)`: the first task with that id. */
  function FindTask(tasks: seq<Task>, id: string): (r: Option<Task>)
    ensures r.None? <==> id !in TaskIds(tasks)
    ensures r.Some? ==> (r.value.id == id &&
      exists j :: 0 <= j < |tasks| && tasks[j] == r.value && forall i :: 0 <= i < j ==> tasks[i].id != id)
  {
    if |tasks| == 0 then None
    else if tasks[0].id == id then
      assert TaskIds(tasks)[0] == id;
      Some(tasks[0])
    else
      var r := FindTask(tasks[1..], id);
      TaskIdsAppend([tasks[0]], tasks[1..]);
      assert [tasks[0]] + tasks[1..] == tasks;
      if r.Some? then
        var j :| 0 <= j < |tasks[1..]| && tasks[1..][j] == r.value &&
          forall i :: 0 <= i < j ==> tasks[1..][i].id != id;
        assert tasks[j + 1] == r.value;
        r
      else r
  }

  /** `stages.find(s => s.id === id)`: the first stage with that id. */
  function FindStage(stages: seq<StageType>, id: string): (r: Option<StageType>)
    ensures r.None? <==> id !in StageIds(stages)
    ensures r.Some? ==> (r.value.id == id &&
      exists j :: 0 <= j < |stages| && stages[j] == r.value && forall i :: 0 <= i < j ==> stages[i].id != id)
  {
    if |stages| == 0 then None
    else if stages[0].id == id then
      assert StageIds(stages)[0] == id;
      Some(stages[0])
    else
      var r := FindStage(stages[1..], id);
      StageIdsAppend([stages[0]], stages[1..]);
      assert [stages[0]] + stages[1..] == stages;
      if r.Some? then
        var j :| 0 <= j < |stages[1..]| && stages[1..][j] == r.value &&
          forall i :: 0 <= i < j ==> stages[1..][i].id != id;
        assert stages[j + 1] == r.value;
        r
      else r
  }

  /** When stage ids are unique, the stage found for an id is the one at its position. */
  lemma FindStageAt(stages: seq<StageType>, i: nat)
    requires Distinct(StageIds(stages)) && i < |stages|
    ensures FindStage(stages, stages[i].id) == Some(stages[i])
  {
    var r := FindStage(stages, stages[i].id);
    assert StageIds(stages)[i] == stages[i].id;
    var j :| 0 <= j < |stages| && stages[j] == r.value && forall k :: 0 <= k < j ==> stages[k].id != stages[i].id;
    assert StageIds(stages)[j] == stages[j].id;
    DistinctPositions(StageIds(stages), i, j);
  }

  /** When task ids are unique, the task found for an id is the one at its position. */
  lemma FindTaskAt(tasks: seq<Task>, i: nat)
    requires Distinct(TaskIds(tasks)) && i < |tasks|
    ensures FindTask(tasks, tasks[i].id) == Some(tasks[i])
  {
    var r := FindTask(tasks, tasks[i].id);
    assert TaskIds(tasks)[i] == tasks[i].id;
    var j :| 0 <= j < |tasks| && tasks[j] == r.value && forall k :: 0 <= k < j ==> tasks[k].id != tasks[i].id;
    assert TaskIds(tasks)[j] == tasks[j].id;
    DistinctPositions(TaskIds(tasks), i, j);
  }

  /** The ids of `ids` that name one of `known`, in their order. */
  function KnownIds(ids: seq<string>, known: seq<string>): (r: seq<string>)
    ensures Subsequence(r, ids)
    ensures forall x :: x in r <==> x in ids && x in known
    ensures forall x :: Count(r, x) == if x in known then Count(ids, x) else 0
  {
    if |ids| == 0 then []
    else
      var rest := KnownIds(ids[1..], known);
      if ids[0] in known then
        assert ([ids[0]] + rest)[1..] == rest;
        [ids[0]] + rest
      else rest
  }

  /** Nothing is skipped when every id is known. */
  lemma {:induction false} KnownIdsAll(ids: seq<string>, known: seq<string>)
    requires forall x :: x in ids ==> x in known
    ensures KnownIds(ids, known) == ids
  {
    if |ids| > 0 {
      KnownIdsAll(ids[1..], known);
      assert [ids[0]] + ids[1..] == ids;
    }
  }

  /** `ids.map(id => tasks.find(...)).filter(Boolean)`: the tasks the ids
      name, in the order of the ids, skipping ids that name no task. */
  function ResolveIds(ids: seq<string>, tasks: seq<Task>): (r: seq<Task>)
    ensures TaskIds(r) == KnownIds(ids, TaskIds(tasks))
    ensures forall k :: 0 <= k < |r| ==> FindTask(tasks, r[k].id) == Some(r[k])
  {
    if |ids| == 0 then []
    else
      var rest := ResolveIds(ids[1..], tasks);
      match FindTask(tasks, ids[0])
      case Some(t) =>
        TaskIdsAppend([t], rest);
        assert TaskIds([t]) == [ids[0]];
        [t] + rest
      case None => rest
  }

  /** `getTasksByStageId`: the tasks of the first stage with that id, in the
      stage's order, skipping ids that name no task; none for an unknown stage. */
  function TasksByStageId(b: Board, stageId: string): (r: seq<Task>)
    ensures stageId !in StageIds(b.stages) ==> r == []
    ensures FindStage(b.stages, stageId).Some? ==>
      TaskIds(r) == KnownIds(FindStage(b.stages, stageId).value.taskIds, TaskIds(b.tasks))
    ensures forall k :: 0 <= k < |r| ==> r[k] in b.tasks
    ensures forall k :: 0 <= k < |r| ==> FindTask(b.tasks, r[k].id) == Some(r[k])
  {
    match FindStage(b.stages, stageId)
    case None => []
    case Some(stage) =>
      var r := ResolveIds(stage.taskIds, b.tasks);
      assert forall k :: 0 <= k < |r| ==> FindTask(b.tasks, r[k].id) == Some(r[k]);
      r
  }

  // ------------------------------------------------------------- createTask

  /** The task `createTask` builds: fresh id, both timestamps `now`, fixed owner. */
  function NewTask(data: TaskData, newId: string, now: nat): (r: Task)
    ensures r.id == newId && r.userId == CurrentUser
    ensures r.createdAt == now && r.updatedAt == r.createdAt
    ensures TaskData(r.title, r.description, r.priority) == data
  {
    Task(newId, data.title, data.description, data.priority, now, now, CurrentUser)
  }

  /** `createTask`: the new task goes to the end of `tasks` and its id to the
      end of every stage with the given id; an unknown stage id leaves the
      stages as they were, so the task is in no stage. */
  function CreateTask(b: Board, stageId: string, data: TaskData, newId: string, now: nat): (r: Board)
    ensures r.tasks == b.tasks + [NewTask(data, newId, now)]
    ensures |r.stages| == |b.stages|
    ensures forall i :: 0 <= i < |b.stages| && b.stages[i].id == stageId ==>
      r.stages[i] == b.stages[i].(taskIds := b.stages[i].taskIds + [newId])
    ensures forall i :: 0 <= i < |b.stages| && b.stages[i].id != stageId ==> r.stages[i] == b.stages[i]
    ensures stageId !in StageIds(b.stages) ==> r.stages == b.stages
    ensures r == b.(tasks := r.tasks, stages := r.stages)
  {
    var stages := seq(|b.stages|, i requires 0 <= i < |b.stages| =>
      if b.stages[i].id == stageId then b.stages[i].(taskIds := b.stages[i].taskIds + [newId])
      else b.stages[i]);
    if stageId !in StageIds(b.stages) then
      assert forall i :: 0 <= i < |b.stages| ==> StageIds(b.stages)[i] == b.stages[i].id;
      assert stages == b.stages;
      b.(tasks := b.tasks + [NewTask(data, newId, now)], stages := stages)
    else
    b.(tasks := b.tasks + [NewTask(data, newId, now)], stages := stages)
  }

  // ------------------------------------------------------------ createStage

  /** The stage `createStage` builds: fresh id, no tasks, owned by the board. */
  function NewStage(data: StageData, newId: string, boardId: string): (r: StageType)
    ensures r.id == newId && r.boardId == boardId && r.taskIds == []
    ensures StageData(r.title, r.order, r.color) == data
  {
    StageType(newId, data.title, data.order, data.color, [], boardId)
  }

  /** `createStage`: the stages plus one new empty stage of this board,
      stably sorted by ascending `order`. */
  function CreateStage(b: Board, data: StageData, newId: string): (r: Board)
    ensures multiset(r.stages) == multiset(b.stages) + multiset{NewStage(data, newId, b.id)}
    ensures Sorted(r.stages)
    ensures forall k :: WithOrder(r.stages, k) == WithOrder(b.stages + [NewStage(data, newId, b.id)], k)
    ensures r == b.(stages := r.stages)
  {
    var stages := b.stages + [NewStage(data, newId, b.id)];
    SortByOrderPermutes(stages);
    SortByOrderSorted(stages);
    forall k ensures WithOrder(SortByOrder(stages), k) == WithOrder(stages, k) {
      SortByOrderStable(stages, k);
    }
    b.(stages := SortByOrder(stages))
  }

  // ------------------------------------------------------------- updateTask

  /** `{ ...task, ...updates, updatedAt: now }`: the fields present in the
      update replace the task's, the others stay, `updatedAt` becomes `now`. */
  function MergeTask(t: Task, u: TaskUpdate, now: nat): (r: Task)
    ensures r.updatedAt == now
    ensures r.id == (if u.id.Some? then u.id.value else t.id)
    ensures r.title == (if u.title.Some? then u.title.value else t.title)
    ensures r.description == (if u.description.Some? then u.description.value else t.description)
    ensures r.priority == (if u.priority.Some? then u.priority.value else t.priority)
    ensures r.createdAt == (if u.createdAt.Some? then u.createdAt.value else t.createdAt)
    ensures r.userId == (if u.userId.Some? then u.userId.value else t.userId)
  {
    Task(
      if u.id.Some? then u.id.value else t.id,
      if u.title.Some? then u.title.value else t.title,
      if u.description.Some? then u.description.value else t.description,
      if u.priority.Some? then u.priority.value else t.priority,
      if u.createdAt.Some? then u.createdAt.value else t.createdAt,
      now,
      if u.userId.Some? then u.userId.value else t.userId)
  }

  /** An update that carries no field only refreshes `updatedAt`. */
  lemma MergeNoChanges(t: Task, now: nat)
    ensures MergeTask(t, NoChanges, now) == t.(updatedAt := now)
  {
  }

  /** `updateTask`: every task with the id is merged with the update; the
      other tasks, their order and all stages stay as they were. */
  function UpdateTask(b: Board, taskId: string, u: TaskUpdate, now: nat): (r: Board)
    ensures |r.tasks| == |b.tasks|
    ensures forall j :: 0 <= j < |b.tasks| && b.tasks[j].id == taskId ==> r.tasks[j] == MergeTask(b.tasks[j], u, now)
    ensures forall j :: 0 <= j < |b.tasks| && b.tasks[j].id != taskId ==> r.tasks[j] == b.tasks[j]
    ensures u.id.None? ==> TaskIds(r.tasks) == TaskIds(b.tasks)
    ensures r == b.(tasks := r.tasks)
  {
    b.(tasks := seq(|b.tasks|, j requires 0 <= j < |b.tasks| =>
      if b.tasks[j].id == taskId then MergeTask(b.tasks[j], u, now) else b.tasks[j]))
  }

  // --------------------------------------------------------------- moveTask

  /** Where `Array.prototype.splice(start, 0, x)` inserts into a list of length
      `len`: a negative start counts from the end, and both ends are clamped. */
  function SpliceStart(len: nat, start: int): (k: nat)
    ensures k <= len
    ensures 0 <= start <= len ==> k == start
    ensures start > len ==> k == len
    ensures start < 0 ==> k == (if len + start < 0 then 0 else len + start)
  {
    if start < 0 then (if len + start < 0 then 0 else len + start)
    else if start > len then len
    else start
  }

  /** The target stage's new `taskIds`: `splice(newIndex, 0, taskId)` when an
      index is given, `push(taskId)` otherwise. */
  function InsertTaskId(ids: seq<string>, taskId: string, newIndex: Option<int>): (r: seq<string>)
    ensures |r| == |ids| + 1
    ensures newIndex.None? ==> r == ids + [taskId]
    ensures newIndex.Some? ==>
      var k := SpliceStart(|ids|, newIndex.value);
      r[k] == taskId && r[..k] == ids[..k] && r[k + 1..] == ids[k..]
    ensures Count(r, taskId) == Count(ids, taskId) + 1
    ensures forall y :: y != taskId ==> Count(r, y) == Count(ids, y)
  {
    var k := if newIndex.Some? then SpliceStart(|ids|, newIndex.value) else |ids|;
    var r := ids[..k] + [taskId] + ids[k..];
    assert ids == ids[..k] + ids[k..];
    assert r[k + 1..] == ids[k..];
    forall y ensures Count(r, y) == Count(ids, y) + (if y == taskId then 1 else 0) {
      CountAppend(ids[..k] + [taskId], ids[k..], y);
      CountAppend(ids[..k], [taskId], y);
      CountAppend(ids[..k], ids[k..], y);
      assert [taskId][1..] == [];
    }
    r
  }

  /** One stage after `moveTask`: the source stage loses every occurrence of
      the task; otherwise the target stage gains it; other stages are untouched.
      The source test comes first, so a move within one stage only removes. */
  function MovedStage(s: StageType, taskId: string, fromStageId: string, toStageId: string,
                      newIndex: Option<int>): (r: StageType)
    ensures r == s.(taskIds := r.taskIds)
    ensures s.id == fromStageId ==> Count(r.taskIds, taskId) == 0 && Subsequence(r.taskIds, s.taskIds)
    ensures s.id != fromStageId && s.id == toStageId ==>
      |r.taskIds| == |s.taskIds| + 1 && Count(r.taskIds, taskId) == Count(s.taskIds, taskId) + 1
    ensures s.id != fromStageId && s.id == toStageId && newIndex.None? ==> r.taskIds == s.taskIds + [taskId]
    ensures s.id != fromStageId && s.id == toStageId && newIndex.Some? ==>
      var k := SpliceStart(|s.taskIds|, newIndex.value);
      r.taskIds[k] == taskId && r.taskIds[..k] == s.taskIds[..k] && r.taskIds[k + 1..] == s.taskIds[k..]
    ensures forall y :: y != taskId ==> Count(r.taskIds, y) == Count(s.taskIds, y)
    ensures s.id != fromStageId && s.id != toStageId ==> r == s
  {
    if s.id == fromStageId then s.(taskIds := Without(s.taskIds, taskId))
    else if s.id == toStageId then s.(taskIds := InsertTaskId(s.taskIds, taskId, newIndex))
    else s
  }

  /** `moveTask`: the source stage loses the task, the target stage (when it
      is a different stage) gains it at `newIndex` or at the end, and only the
      moved task's `updatedAt` changes. */
  function MoveTask(b: Board, taskId: string, fromStageId: string, toStageId: string,
                    newIndex: Option<int>, now: nat): (r: Board)
    ensures |r.stages| == |b.stages| && |r.tasks| == |b.tasks|
    ensures forall i :: 0 <= i < |b.stages| ==> r.stages[i] == b.stages[i].(taskIds := r.stages[i].taskIds)
    ensures forall i :: 0 <= i < |b.stages| && b.stages[i].id == fromStageId ==>
      r.stages[i].taskIds == Without(b.stages[i].taskIds, taskId) && taskId !in r.stages[i].taskIds
    ensures forall i :: 0 <= i < |b.stages| && b.stages[i].id != fromStageId && b.stages[i].id == toStageId ==>
      r.stages[i].taskIds == InsertTaskId(b.stages[i].taskIds, taskId, newIndex)
    ensures forall i :: 0 <= i < |b.stages| && b.stages[i].id != fromStageId && b.stages[i].id != toStageId ==>
      r.stages[i] == b.stages[i]
    ensures forall j :: 0 <= j < |b.tasks| ==>
      r.tasks[j] == if b.tasks[j].id == taskId then b.tasks[j].(updatedAt := now) else b.tasks[j]
    ensures TaskIds(r.tasks) == TaskIds(b.tasks)
    ensures r == b.(stages := r.stages, tasks := r.tasks)
  {
    b.(stages := seq(|b.stages|, i requires 0 <= i < |b.stages| =>
                   MovedStage(b.stages[i], taskId, fromStageId, toStageId, newIndex)),
       tasks := seq(|b.tasks|, j requires 0 <= j < |b.tasks| =>
                   if b.tasks[j].id == taskId then b.tasks[j].(updatedAt := now) else b.tasks[j]))
  }

  // ------------------------------------------------------------- deleteTask

  /** `tasks.filter(task => task.id !== id)`. */
  function WithoutTask(tasks: seq<Task>, id: string): (r: seq<Task>)
    ensures TaskIds(r) == Without(TaskIds(tasks), id)
    ensures forall t :: t in r <==> t in tasks && t.id != id
    ensures Subsequence(r, tasks)
  {
    if |tasks| == 0 then []
    else
      var rest := WithoutTask(tasks[1..], id);
      TaskIdsAppend([tasks[0]], tasks[1..]);
      assert [tasks[0]] + tasks[1..] == tasks;
      if tasks[0].id == id then rest
      else
        TaskIdsAppend([tasks[0]], rest);
        [tasks[0]] + rest
  }

  /** `deleteTask`: the task leaves `tasks` and its id leaves every stage;
      the stages keep their number, their order and the order of their other ids. */
  function DeleteTask(b: Board, taskId: string): (r: Board)
    ensures forall t :: t in r.tasks <==> t in b.tasks && t.id != taskId
    ensures TaskIds(r.tasks) == Without(TaskIds(b.tasks), taskId)
    ensures Subsequence(r.tasks, b.tasks)
    ensures |r.stages| == |b.stages|
    ensures forall i :: 0 <= i < |b.stages| ==>
      r.stages[i] == b.stages[i].(taskIds := Without(b.stages[i].taskIds, taskId))
    ensures r == b.(tasks := r.tasks, stages := r.stages)
  {
    b.(tasks := WithoutTask(b.tasks, taskId),
       stages := seq(|b.stages|, i requires 0 <= i < |b.stages| =>
                   b.stages[i].(taskIds := Without(b.stages[i].taskIds, taskId))))
  }

  // ------------------------------------------------------------ deleteStage

  /** `stages.filter(s => s.id !== id)`. */
  function WithoutStage(stages: seq<StageType>, id: string): (r: seq<StageType>)
    ensures StageIds(r) == Without(StageIds(stages), id)
    ensures forall s :: s in r <==> s in stages && s.id != id
    ensures Subsequence(r, stages)
    ensures id !in StageIds(stages) ==> r == stages
  {
    if |stages| == 0 then []
    else
      var rest := WithoutStage(stages[1..], id);
      StageIdsAppend([stages[0]], stages[1..]);
      assert [stages[0]] + stages[1..] == stages;
      if stages[0].id == id then rest
      else
        StageIdsAppend([stages[0]], rest);
        [stages[0]] + rest
  }

  /** Removing stages from a sorted list leaves it sorted. */
  lemma {:induction false} WithoutStageSorted(stages: seq<StageType>, id: string)
    requires Sorted(stages)
    ensures Sorted(WithoutStage(stages, id))
  {
    if |stages| > 0 {
      WithoutStageSorted(stages[1..], id);
      var rest := WithoutStage(stages[1..], id);
      if stages[0].id != id {
        forall q | 0 <= q < |rest| ensures stages[0].order <= rest[q].order {
          assert rest[q] in stages[1..];
        }
        SortedAppend([stages[0]], rest);
      }
    }
  }

  /** The stage list after `deleteStage`, from the deleted stage (if found)
      and the remaining stages: with both, every remaining stage that shares
      the first one's id gets the deleted stage's ids appended; only `taskIds`
      ever change. */
  function ReassignTasks(remaining: seq<StageType>, deleted: Option<StageType>): (r: seq<StageType>)
    ensures |r| == |remaining| && StageIds(r) == StageIds(remaining)
    ensures forall i :: 0 <= i < |r| ==> r[i] == remaining[i].(taskIds := r[i].taskIds)
    ensures deleted.Some? && |remaining| > 0 ==> r[0].taskIds == remaining[0].taskIds + deleted.value.taskIds
    ensures deleted.Some? ==> forall i :: 0 <= i < |r| && remaining[i].id == remaining[0].id ==>
      r[i].taskIds == remaining[i].taskIds + deleted.value.taskIds
    ensures forall i :: 0 <= i < |r| && (deleted.None? || remaining[i].id != remaining[0].id) ==> r[i] == remaining[i]
  {
    if deleted.Some? && |remaining| > 0 then
      seq(|remaining|, i requires 0 <= i < |remaining| =>
        if remaining[i].id == remaining[0].id
        then remaining[i].(taskIds := remaining[i].taskIds + deleted.value.taskIds)
        else remaining[i])
    else remaining
  }

  /** `deleteStage`: the stage goes; when it existed and others remain, its
      ids are appended, in their order, to the first remaining stage; when it
      was the only stage the stage list becomes empty and the tasks stay. */
  function DeleteStage(b: Board, stageId: string): (r: Board)
    ensures r.tasks == b.tasks
    ensures StageIds(r.stages) == Without(StageIds(b.stages), stageId)
    ensures stageId !in StageIds(b.stages) ==> r.stages == b.stages
    ensures (forall i :: 0 <= i < |b.stages| ==> b.stages[i].id == stageId) ==> r.stages == []
    ensures stageId in StageIds(b.stages) && |r.stages| > 0 ==>
      r.stages[0].taskIds == WithoutStage(b.stages, stageId)[0].taskIds + FindStage(b.stages, stageId).value.taskIds
    ensures |r.stages| == |WithoutStage(b.stages, stageId)|
    ensures forall k :: 0 <= k < |r.stages| ==>
      r.stages[k] == WithoutStage(b.stages, stageId)[k].(taskIds := r.stages[k].taskIds)
    ensures forall k :: 0 < k < |r.stages| && r.stages[k].id != r.stages[0].id ==>
      r.stages[k] == WithoutStage(b.stages, stageId)[k]
    ensures stageId in StageIds(b.stages) ==> forall k :: 0 <= k < |r.stages| && r.stages[k].id == r.stages[0].id ==>
      r.stages[k].taskIds == WithoutStage(b.stages, stageId)[k].taskIds + FindStage(b.stages, stageId).value.taskIds
    ensures r == b.(stages := r.stages)
  {
    var remaining := WithoutStage(b.stages, stageId);
    assert |remaining| > 0 ==> remaining[0] in remaining;
    b.(stages := ReassignTasks(remaining, FindStage(b.stages, stageId)))
  }

  // ---------------------------------------------------------- reorderStages

  /** The stages with the named one's `order` replaced. */
  function SetOrder(stages: seq<StageType>, stageId: string, newOrder: int): (r: seq<StageType>)
    ensures |r| == |stages| && StageIds(r) == StageIds(stages)
    ensures forall i :: 0 <= i < |stages| ==>
      r[i] == stages[i].(order := if stages[i].id == stageId then newOrder else stages[i].order)
  {
    seq(|stages|, i requires 0 <= i < |stages| =>
      if stages[i].id == stageId then stages[i].(order := newOrder) else stages[i])
  }

  /** `reorderStages`: the named stage gets the new order and the stages are
      stably sorted by ascending `order`. */
  function ReorderStages(b: Board, stageId: string, newOrder: int): (r: Board)
    ensures multiset(r.stages) == multiset(SetOrder(b.stages, stageId, newOrder))
    ensures Sorted(r.stages)
    ensures forall k :: WithOrder(r.stages, k) == WithOrder(SetOrder(b.stages, stageId, newOrder), k)
    ensures r == b.(stages := r.stages)
  {
    var stages := SetOrder(b.stages, stageId, newOrder);
    SortByOrderPermutes(stages);
    SortByOrderSorted(stages);
    forall k ensures WithOrder(SortByOrder(stages), k) == WithOrder(stages, k) {
      SortByOrderStable(stages, k);
    }
    b.(stages := SortByOrder(stages))
  }
}
