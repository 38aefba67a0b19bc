# TaskBoard board store in Dafny

TaskBoard is a single-user Kanban board. A `Board` holds a list of tasks and
a list of stages (columns). Each stage lists, in display order, the ids of
the tasks it contains. The React hook `useTaskBoard` owns the board. Each of
its operations replaces the board with a new value: create, update, move and
delete a task; create, delete and reorder a stage. Two read-only queries sit
beside them. The `TaskBoard` component adds three pieces of logic:

- the rule that turns a drag-and-drop into a `moveTask` call;
- the `order` it offers for a new stage;
- the stage listing, which sorts the board's stage array in place.

This project models that logic and proves what it keeps and what it breaks.

The board is meant to satisfy one invariant, `BoardInvariants.WellFormed`:

- task ids are unique, and so are stage ids;
- every task id occurs exactly once across all stages' `taskIds`;
- no stage holds an id that is not a task;
- stages are in ascending `order`.

An operation keeps the invariant under these conditions:

- `createTask` needs a fresh task id and an existing stage;
- `createStage` needs a fresh stage id;
- `updateTask` needs an update that leaves `id` out;
- `moveTask` needs a source stage that holds the task and a different, existing target stage;
- `deleteStage` needs at least two stages;
- `deleteTask` and `reorderStages` need nothing.

The code breaks the invariant in seven cases, and the model keeps them as written:

- **Moving a task within its own stage** drops the task from every stage. The
  source-stage branch wins, so the task is never re-inserted. The drag handler
  never issues such a move (`TaskBoardView.DropMoveKeepsWellFormed`).
- **Moving a task from a stage that does not hold it** leaves it where it was
  and adds it to the target as well, so it is held twice
  (`BoardInvariants.MoveTaskFromNonHolderDuplicates`).
- **Updating a task's `id`** renames the task while its stage still holds the
  old id (`BoardInvariants.UpdateTaskRenameOrphans`).
- **Creating a task in an unknown stage** adds the task to `tasks`, but no
  stage lists it.
- **Moving a task to a stage id that no stage has** filters the task out of
  its stage and adds it nowhere, so no stage holds it
  (`BoardInvariants.MoveTaskToUnknownStageOrphans`).
- **Moving an id that names no task** puts that id into the target stage,
  which then holds an id with no task behind it
  (`BoardInvariants.MoveUnknownTaskDangles`).
- **Deleting the only stage** empties the stage list and keeps every task.

`moveTask` passes `newIndex` to `Array.prototype.splice`, which clamps it:

- an index past the end appends;
- a negative index counts back from the end, so `-1` inserts before the
  last id, and any index at or below minus the length inserts at the front.

Modules, one file each:

- `TaskTypes` (`task_types.dfy`): the entities of `src/types/task.ts`.
- `Membership` (`membership.dfy`):
  - `Count`, which counts occurrences;
  - `Without`, the `filter(id => id !== x)` used throughout;
  - the membership half of the invariant.
- `StageOrder` (`stage_order.dfy`): `sort((a, b) => a.order - b.order)`.
  `Array.prototype.sort` is stable, so it is modelled as a stable insertion
  sort `SortByOrder`. It is proved sorted, a permutation and stable. The
  in-place array version used by the listing is proved equal to it.
- `BoardOps` (`board_ops.dfy`): each hook operation as a function from the
  previous board to the next.
- `BoardInvariants` (`board_invariants.dfy`): preservation of `WellFormed`,
  and the seven cases that break it.
- `UseTaskBoard` (`use_task_board.dfy`): the hook as a class `TaskBoardStore`.
  It has a mutable `board` field and one method per operation.
- `TaskBoardView` (`task_board_view.dfy`):
  - the drop rule and `nextOrder`;
  - the component class, which holds the dragged id and sorts the stages in
    place when rendering.

Parameters and representation:

- The hook builds ids from `Date.now()` and `Math.random()`, and timestamps
  from `new Date()`. Here they are parameters (`newId`, `now`).
- Timestamps are `nat`, and a stage's `order` is an `int`.
- An optional field is an `Option`.
- In an update, a field left out is `None`. `description` is
  `Option<Option<string>>`, because an update may set it to `undefined`.

## Model

| member | source | states |
|---|---|---|
| Membership.Without | src/hooks/useTaskBoard.ts:77 | every occurrence of the id is gone; every other id keeps its number of occurrences; the result is a subsequence of the input |
| Membership.ConsistentHome | src/types/task.ts:16 | under the invariant, a task's id is held once by one stage and by no other stage |
| Membership.ConsistentNoDuplicates | src/types/task.ts:16 | under the invariant, no stage's `taskIds` holds the same id at two positions |
| StageOrder.InsertByOrderSplit | src/hooks/useTaskBoard.ts:46 | one insertion step puts the new stage after every stage with order not greater than its own and before the rest |
| StageOrder.SortByOrder | src/hooks/useTaskBoard.ts:46 | the stable sort by `order` used by `createStage`, `reorderStages` and the listing keeps the number of stages; its order, permutation and stability are the lemmas below |
| StageOrder.SortByOrderSorted | src/hooks/useTaskBoard.ts:46 | the sorted stages are in ascending `order` |
| StageOrder.SortByOrderPermutes | src/hooks/useTaskBoard.ts:46 | sorting is a permutation (same multiset of stages) |
| StageOrder.SortByOrderStable | src/hooks/useTaskBoard.ts:46 | stages with equal `order` keep their relative order, as `Array.prototype.sort` guarantees |
| StageOrder.SortByOrderOfSorted | src/hooks/useTaskBoard.ts:161 | sorting an already sorted stage list changes nothing |
| StageOrder.SortByOrderOccurrences | src/hooks/useTaskBoard.ts:46 | sorting keeps how often every task id occurs across the stages |
| StageOrder.SortByOrderStageIds | src/hooks/useTaskBoard.ts:46 | sorting keeps how many stages carry every stage id |
| StageOrder.InsertInPlace | src/components/TaskBoard.tsx:184-185 | shifting larger stages right and dropping the next stage into the gap yields the insertion-step result on the array prefix, leaving the rest of the array alone |
| StageOrder.SortStagesInPlace | src/components/TaskBoard.tsx:184-185 | sorting the array in place leaves exactly `SortByOrder` of its old contents |
| BoardOps.FindTask | src/hooks/useTaskBoard.ts:180 | absent exactly when no task has the id; otherwise the first task with that id |
| BoardOps.FindTaskAt | src/hooks/useTaskBoard.ts:180 | with unique task ids, the task found for an id is the task at its position |
| BoardOps.FindStage | src/hooks/useTaskBoard.ts:124 | absent exactly when no stage has the id; otherwise the first stage with that id |
| BoardOps.FindStageAt | src/hooks/useTaskBoard.ts:168 | with unique stage ids, the stage found for an id is the stage at its position |
| BoardOps.KnownIds | src/hooks/useTaskBoard.ts:171-173 | the ids that name a task, as a subsequence of the stage's ids: an id is kept exactly when it is known, and a known id keeps every one of its occurrences |
| BoardOps.KnownIdsAll | src/hooks/useTaskBoard.ts:171-173 | when every id is known, nothing is skipped |
| BoardOps.ResolveIds | src/hooks/useTaskBoard.ts:171-173 | the tasks returned carry exactly the known ids, in the stage's order, and each is the task `find` returns for its id |
| BoardOps.TasksByStageId | src/hooks/useTaskBoard.ts:166-176 | empty for an unknown stage; otherwise the ids of the result are the stage's known ids in order, and every task returned is the first task with its id, the one `find` returns |
| BoardOps.NewTask | src/hooks/useTaskBoard.ts:13-19 | the new task carries the given id, owner `current-user`, `createdAt` and `updatedAt` both `now`, and exactly the supplied title, description and priority |
| BoardOps.CreateTask | src/hooks/useTaskBoard.ts:8-29 | the new task (fresh id, both timestamps `now`, owner `current-user`) is appended to `tasks`; its id is appended to every stage with the given id; other stages are untouched; an unknown stage id leaves all stages as they were |
| BoardOps.NewStage | src/hooks/useTaskBoard.ts:37-42 | the new stage carries the given id and board id, no task ids, and exactly the supplied title, order and color |
| BoardOps.CreateStage | src/hooks/useTaskBoard.ts:35-47 | the stages become the old ones plus one empty stage of this board, as a multiset; they are sorted; equal orders keep old-then-new order |
| BoardOps.MergeTask | src/hooks/useTaskBoard.ts:58 | each field present in the update replaces the task's, each absent field keeps its value, and `updatedAt` is `now` |
| BoardOps.MergeNoChanges | src/hooks/useTaskBoard.ts:58 | an update with no fields only sets `updatedAt` |
| BoardOps.UpdateTask | src/hooks/useTaskBoard.ts:53-61 | only tasks with the id change, by the merge; the number and order of tasks and all stages are unchanged; without an id change the task ids are unchanged |
| BoardOps.SpliceStart | src/hooks/useTaskBoard.ts:84 | the splice position is within the list: the index itself when in range, the length for an index past the end, and for a negative index the length plus the index, or 0 when that is still negative |
| BoardOps.InsertTaskId | src/hooks/useTaskBoard.ts:81-91 | the list grows by one; the id is at the clamped index with the old ids before and after it, or at the end without an index; the moved id occurs once more and every other id as often as before |
| BoardOps.MovedStage | src/hooks/useTaskBoard.ts:73-95 | only `taskIds` change; the source stage loses every occurrence of the task and keeps the rest in order; otherwise the target stage gains the id at the splice position, between the old ids before and after it, or at the end without an index; no other id changes count; any other stage is returned as it was |
| BoardOps.MoveTask | src/hooks/useTaskBoard.ts:72-103 | only `taskIds` of stages change; the source stage loses every occurrence of the task, keeping the others in order; each stage with the source id holds exactly the filtered list; a different target stage gets the splice-or-push insertion; other stages are unchanged; only the moved task's `updatedAt` changes and the task ids stay |
| BoardOps.WithoutTask | src/hooks/useTaskBoard.ts:113 | keeps exactly the tasks whose id differs, in their order (a subsequence of the input); the ids left are the filtered id list |
| BoardOps.DeleteTask | src/hooks/useTaskBoard.ts:110-119 | the task leaves `tasks`, the other tasks keeping their order; its id leaves every stage; the number of stages and the order of the other ids are kept |
| BoardOps.WithoutStage | src/hooks/useTaskBoard.ts:125 | keeps exactly the stages whose id differs, in their order (a subsequence of the input), and is the identity for an unknown id |
| BoardOps.WithoutStageSorted | src/hooks/useTaskBoard.ts:125 | removing stages from a sorted list keeps it sorted |
| BoardOps.ReassignTasks | src/hooks/useTaskBoard.ts:127-149 | only `taskIds` change; with a deleted stage and survivors, every survivor with the first survivor's id has its ids followed by the deleted stage's ids; stages with other ids are untouched |
| BoardOps.DeleteStage | src/hooks/useTaskBoard.ts:122-151 | the stage id is filtered out and tasks are untouched; an unknown id changes nothing; deleting every stage leaves none; each survivor keeps every field but `taskIds`; every survivor with the first survivor's id ends with the deleted stage's ids after its own; every survivor with another id is unchanged |
| BoardOps.SetOrder | src/hooks/useTaskBoard.ts:158-160 | only the named stage's `order` changes; ids and positions stay |
| BoardOps.ReorderStages | src/hooks/useTaskBoard.ts:154-163 | the result is a sorted, stable permutation of the stages with the one order changed |
| BoardInvariants.WellFormed | src/types/task.ts:11-18 | the board invariant: unique task and stage ids, every task id held exactly once across the stages, no held id that is not a task, and stages in ascending `order` |
| BoardInvariants.WellFormedHoldsExactlyTasks | src/types/task.ts:16 | under the invariant, the ids the stages hold are exactly the task ids |
| BoardInvariants.CreateTaskKeepsWellFormed | src/hooks/useTaskBoard.ts:21-29 | a fresh task in an existing stage keeps the invariant and ends last in that stage |
| BoardInvariants.CreateTaskUnknownStageOrphans | src/hooks/useTaskBoard.ts:21-29 | a task created in an unknown stage is in `tasks` but in no stage, so the invariant is lost |
| BoardInvariants.CreateStageKeepsWellFormed | src/hooks/useTaskBoard.ts:37-47 | a stage with a fresh id, at any order, keeps the invariant |
| BoardInvariants.UpdateTaskKeepsWellFormed | src/hooks/useTaskBoard.ts:53-61 | an update that does not change the id keeps the invariant |
| BoardInvariants.UpdateTaskNoChanges | src/hooks/useTaskBoard.ts:53-61 | an empty update only refreshes the named task's `updatedAt` |
| BoardInvariants.UpdateTaskRenameOrphans | src/hooks/useTaskBoard.ts:53-61 | an update that renames a task removes its old id from `tasks` while its stage still holds it once, so the invariant is lost |
| BoardInvariants.MoveTaskKeepsWellFormed | src/hooks/useTaskBoard.ts:72-103 | moving a held task to a different stage keeps the invariant: it leaves the source and is held once by the target, at the end without an index |
| BoardInvariants.MoveTaskTwoStages | src/hooks/useTaskBoard.ts:73-95 | with unique stage ids, a move between two stages filters the source, inserts into the target and leaves every other stage as it was |
| BoardInvariants.TransferKeepsOccurrences | src/hooks/useTaskBoard.ts:73-95 | taking the one copy of an id out of one stage and inserting it into another keeps how often every id occurs across the stages |
| BoardInvariants.MoveTaskWithinStageOrphans | src/hooks/useTaskBoard.ts:74-79 | a move within one stage removes the task from every stage while it stays in `tasks` |
| BoardInvariants.MoveTaskFromNonHolderDuplicates | src/hooks/useTaskBoard.ts:73-95 | a move from a stage that does not hold the task to another stage leaves the task held twice, so the invariant is lost |
| BoardInvariants.MoveTaskToUnknownStageOrphans | src/hooks/useTaskBoard.ts:73-95 | a held task moved to a stage id no stage has stays in `tasks` but is held by no stage, so the invariant is lost |
| BoardInvariants.MoveUnknownTaskDangles | src/hooks/useTaskBoard.ts:81-91 | an id that names no task, moved into an existing stage, is held by that stage while no task has it, so the invariant is lost |
| BoardInvariants.DeleteTaskKeepsWellFormed | src/hooks/useTaskBoard.ts:110-119 | deleting a task keeps the invariant and leaves its id nowhere |
| BoardInvariants.WithoutStageOccurrences | src/hooks/useTaskBoard.ts:125 | filtering out the one stage with an id removes exactly that stage's share of every task id |
| BoardInvariants.WithoutStageDistinct | src/hooks/useTaskBoard.ts:125 | filtering out a uniquely named stage removes one stage and keeps stage ids unique |
| BoardInvariants.DeleteStageKeepsWellFormed | src/hooks/useTaskBoard.ts:122-143 | deleting one of several stages keeps the invariant; the stage is gone, one fewer remain, and its ids follow the first survivor's |
| BoardInvariants.DeleteOnlyStageOrphans | src/hooks/useTaskBoard.ts:145-149 | deleting the only stage empties the stage list and keeps every task, so with any task the invariant is lost |
| BoardInvariants.ReorderStagesKeepsWellFormed | src/hooks/useTaskBoard.ts:154-163 | reordering keeps the invariant |
| BoardInvariants.ReorderUnknownStage | src/hooks/useTaskBoard.ts:154-163 | reordering an unknown stage on a sorted board changes nothing |
| BoardInvariants.TasksByStageIdComplete | src/hooks/useTaskBoard.ts:166-176 | under the invariant, a stage's tasks are exactly its ids, in order, with none skipped |
| BoardInvariants.TaskByIdFinds | src/hooks/useTaskBoard.ts:178-183 | under the invariant, every task is found by its own id |
| UseTaskBoard.TaskBoardStore.constructor | src/hooks/useTaskBoard.ts:5 | the store starts from the initial board |
| UseTaskBoard.TaskBoardStore.CreateTask | src/hooks/useTaskBoard.ts:8-32 | the board becomes the `createTask` result; the invariant is kept for a fresh id in an existing stage; the task is orphaned for an unknown stage |
| UseTaskBoard.TaskBoardStore.CreateStage | src/hooks/useTaskBoard.ts:35-50 | the board becomes the `createStage` result and satisfies the invariant when the id is fresh |
| UseTaskBoard.TaskBoardStore.UpdateTask | src/hooks/useTaskBoard.ts:53-62 | the board becomes the `updateTask` result; the invariant is kept when the id is not updated |
| UseTaskBoard.TaskBoardStore.MoveTask | src/hooks/useTaskBoard.ts:65-107 | the board becomes the `moveTask` result; the invariant is kept for a move between two different stages of a task the source holds |
| UseTaskBoard.TaskBoardStore.DeleteTask | src/hooks/useTaskBoard.ts:110-119 | the board becomes the `deleteTask` result; the invariant is kept, and the id is gone |
| UseTaskBoard.TaskBoardStore.DeleteStage | src/hooks/useTaskBoard.ts:122-151 | the board becomes the `deleteStage` result; the invariant is kept while more than one stage exists |
| UseTaskBoard.TaskBoardStore.ReorderStages | src/hooks/useTaskBoard.ts:154-163 | the board becomes the `reorderStages` result, which satisfies the invariant |
| UseTaskBoard.TaskBoardStore.GetTasksByStageId | src/hooks/useTaskBoard.ts:166-176 | empty for an unknown stage; under the invariant, the tasks whose ids the stage lists, in order |
| UseTaskBoard.TaskBoardStore.GetTaskById | src/hooks/useTaskBoard.ts:178-183 | absent exactly when no task has the id; otherwise a task on the board with that id |
| TaskBoardView.StageHolding | src/components/TaskBoard.tsx:82-84 | absent exactly when no stage holds the id; otherwise the first stage that holds it |
| TaskBoardView.DropMove | src/components/TaskBoard.tsx:67-100 | no move when there is no drop target, no such task, no stage holding it, a drop on its own stage, or a drop on a non-stage; otherwise exactly the move from the holding stage to the target stage |
| TaskBoardView.DropMoveKeepsWellFormed | src/components/TaskBoard.tsx:92-97 | the move a drop issues has distinct source and target, keeps the invariant and appends the task to the target stage |
| TaskBoardView.DropMoveStages | src/components/TaskBoard.tsx:82-97 | the move a drop issues names the first stage holding the task and a different stage, by their positions |
| TaskBoardView.DropMoveAppends | src/components/TaskBoard.tsx:92-97 | with unique stage ids, the stage a drop targets ends with the task appended |
| TaskBoardView.MaxOrder | src/components/TaskBoard.tsx:134 | at least 0 and every order; equal to 0 or to some stage's order |
| TaskBoardView.NextOrder | src/components/TaskBoard.tsx:134 | at least 1, greater than every stage's order, and 1 or one more than an existing order |
| TaskBoardView.CreateStageAtNextOrderIsLast | src/components/TaskBoard.tsx:134 | on sorted stages, a stage created at `nextOrder` goes last and nothing else moves |
| TaskBoardView.TaskBoardView.constructor | src/components/TaskBoard.tsx:31-56 | the store starts from the initial board and nothing is being dragged |
| TaskBoardView.TaskBoardView.HandleDragStart | src/components/TaskBoard.tsx:63-65 | the dragged id is remembered |
| TaskBoardView.TaskBoardView.HandleDragEnd | src/components/TaskBoard.tsx:67-100 | the board changes only by the move the drop rule decides on; the invariant is kept; the dragged id is always cleared |
| TaskBoardView.TaskBoardView.RenderStages | src/components/TaskBoard.tsx:184-185 | the board's own stage list is sorted in place and listed: sorted, a permutation, unchanged when already sorted, and satisfying the invariant when membership held |
| TaskBoardView.RenderKeepsConsistent | src/components/TaskBoard.tsx:184-185 | sorting the stage list turns a board with the membership invariant into one that also has sorted stages |

## Left out

- `saveToLocalStorage` and `loadFromLocalStorage` (src/hooks/useTaskBoard.ts:186-205) are not modelled. They are browser storage I/O and use `JSON.stringify`/`JSON.parse`.
- Id generation (`Date.now()`, `Math.random()`) and `new Date()` are not modelled. They are nondeterministic. Ids and timestamps are parameters, and the invariant lemmas require the ids to be fresh.
- `BoardOps.NewTask`: the two `new Date()` calls of `createTask` (src/hooks/useTaskBoard.ts:16-17) are modelled as one clock reading `now`, so `createdAt` and `updatedAt` are always equal; in the source they may differ by the time between the two calls.
- JavaScript `number` semantics of `order` (fractions, `NaN`, the comparator `a.order - b.order` on such values) are not modelled. Orders are integers.
- JavaScript `number` semantics of `moveTask`'s `newIndex` are not modelled either. The model takes an integer. `splice` would truncate a fractional index toward zero and treat `NaN` as 0.
- Extra properties that the spread `...taskData` or `...stageData` would copy into a new task or stage are not modelled. The model carries only the declared fields.
- React plumbing is not modelled: `useState`, `useCallback` and its dependency lists, and re-rendering. A `setBoard` callback becomes one assignment to the store's `board`.
  - `createStage` reads `board.id` from the rendered board rather than from `prev`. No operation changes the board id, so the model uses the previous board's id.
- The dnd-kit sensors and collision detection are not modelled. A drop arrives as the dragged id and the optional target id.
- The drag overlay, framer-motion animation and the JSX are not modelled.
- The modal handlers (`handleCreateTask`, `handleEditTask`, the submit handlers) and `getStageTitle` are not modelled. They are UI glue.
- `BoardOps.InsertTaskId`: the source copies `taskIds` and then splices or pushes into the copy. The model computes the resulting list as a value, so in-place updates to that local copy are not represented.
- The listing in src/components/TaskBoard.tsx:184-206 also calls `getTasksByStageId` per stage and renders. Only the in-place sort and the order of the listed stages are modelled.

