/** The `useTaskBoard` hook as an object: `board` is the state cell and each
    operation replaces it with the value the matching `BoardOps` function
    computes from the previous board, as `setBoard(prev => ...)` does. */
module UseTaskBoard {
  import opened TaskTypes
  import opened Membership
  import opened BoardOps
  import opened BoardInvariants

  class TaskBoardStore {
    var board: Board

    /** `useState<Board>(initialBoard)`. */
    constructor(initialBoard: Board)
      ensures board == initialBoard
    {
      board := initialBoard;
    }

    /** `createTask(stageId, taskData)`, with the generated id and the clock
        reading passed in. */
    method CreateTask(stageId: string, data: TaskData, newId: string, now: nat)
      modifies this
      ensures board == BoardOps.CreateTask(old(board), stageId, data, newId, now)
      ensures old(WellFormed(board) && stageId in StageIds(board.stages) && newId !in TaskIds(board.tasks)) ==>
        WellFormed(board)
      ensures old(Consistent(board) && stageId !in StageIds(board.stages) && newId !in TaskIds(board.tasks)) ==>
        Occurrences(board.stages, newId) == 0 && newId in TaskIds(board.tasks)
    {
      var prev := board;
      board := BoardOps.CreateTask(prev, stageId, data, newId, now);
      if WellFormed(prev) && stageId in StageIds(prev.stages) && newId !in TaskIds(prev.tasks) {
        CreateTaskKeepsWellFormed(prev, stageId, data, newId, now);
      }
      if Consistent(prev) && stageId !in StageIds(prev.stages) && newId !in TaskIds(prev.tasks) {
        CreateTaskUnknownStageOrphans(prev, stageId, data, newId, now);
      }
    }

    /** `createStage(stageData)`, with the generated id passed in. */
    method CreateStage(data: StageData, newId: string)
      modifies this
      ensures board == BoardOps.CreateStage(old(board), data, newId)
      ensures old(Consistent(board) && newId !in StageIds(board.stages)) ==> WellFormed(board)
    {
      var prev := board;
      board := BoardOps.CreateStage(prev, data, newId);
      if Consistent(prev) && newId !in StageIds(prev.stages) {
        CreateStageKeepsWellFormed(prev, data, newId);
      }
    }

    /** `updateTask(taskId, updates)`. */
    method UpdateTask(taskId: string, u: TaskUpdate, now: nat)
      modifies this
      ensures board == BoardOps.UpdateTask(old(board), taskId, u, now)
      ensures old(WellFormed(board)) && u.id.None? ==> WellFormed(board)
    {
      var prev := board;
      board := BoardOps.UpdateTask(prev, taskId, u, now);
      if WellFormed(prev) && u.id.None? {
        UpdateTaskKeepsWellFormed(prev, taskId, u, now);
      }
    }

    /** `moveTask(taskId, fromStageId, toStageId, newIndex?)`. */
    method MoveTask(taskId: string, fromStageId: string, toStageId: string, newIndex: Option<int>, now: nat)
      modifies this
      ensures board == BoardOps.MoveTask(old(board), taskId, fromStageId, toStageId, newIndex, now)
      ensures forall i, j ::
        (0 <= i < |old(board).stages| && 0 <= j < |old(board).stages| && i != j &&
         old(board).stages[i].id == fromStageId && old(board).stages[j].id == toStageId &&
         old(WellFormed(board)) && taskId in old(board).stages[i].taskIds) ==>
        WellFormed(board)
    {
      var prev := board;
      board := BoardOps.MoveTask(prev, taskId, fromStageId, toStageId, newIndex, now);
      forall i, j | 0 <= i < |prev.stages| && 0 <= j < |prev.stages| && i != j &&
        prev.stages[i].id == fromStageId && prev.stages[j].id == toStageId &&
        WellFormed(prev) && taskId in prev.stages[i].taskIds
        ensures WellFormed(board)
      {
        MoveTaskKeepsWellFormed(prev, taskId, i, j, newIndex, now);
      }
    }

    /** `deleteTask(taskId)`. */
    method DeleteTask(taskId: string)
      modifies this
      ensures board == BoardOps.DeleteTask(old(board), taskId)
      ensures old(WellFormed(board)) ==> WellFormed(board) && taskId !in TaskIds(board.tasks)
    {
      var prev := board;
      board := BoardOps.DeleteTask(prev, taskId);
      if WellFormed(prev) {
        DeleteTaskKeepsWellFormed(prev, taskId);
      }
    }

    /** `deleteStage(stageId)`. */
    method DeleteStage(stageId: string)
      modifies this
      ensures board == BoardOps.DeleteStage(old(board), stageId)
      ensures old(WellFormed(board)) && |old(board).stages| > 1 ==> WellFormed(board)
    {
      var prev := board;
      board := BoardOps.DeleteStage(prev, stageId);
      if WellFormed(prev) && |prev.stages| > 1 {
        if stageId in StageIds(prev.stages) {
          var i := StagePosition(prev.stages, stageId);
          DeleteStageKeepsWellFormed(prev, i);
        }
      }
    }

    /** `reorderStages(stageId, newOrder)`. */
    method ReorderStages(stageId: string, newOrder: int)
      modifies this
      ensures board == BoardOps.ReorderStages(old(board), stageId, newOrder)
      ensures old(Consistent(board)) ==> WellFormed(board)
    {
      var prev := board;
      board := BoardOps.ReorderStages(prev, stageId, newOrder);
      if Consistent(prev) {
        ReorderStagesKeepsWellFormed(prev, stageId, newOrder);
      }
    }

    /** `getTasksByStageId(stageId)`: under the invariant, exactly the tasks
        the stage lists, in its order. */
    method GetTasksByStageId(stageId: string) returns (r: seq<Task>)
      ensures r == TasksByStageId(board, stageId)
      ensures stageId !in StageIds(board.stages) ==> r == []
      ensures forall i :: 0 <= i < |board.stages| && board.stages[i].id == stageId && Consistent(board) ==>
        TaskIds(r) == board.stages[i].taskIds
    {
      r := TasksByStageId(board, stageId);
      forall i | 0 <= i < |board.stages| && board.stages[i].id == stageId && Consistent(board)
        ensures TaskIds(r) == board.stages[i].taskIds
      {
        TasksByStageIdComplete(board, i);
      }
    }

    /** `getTaskById(taskId)`: the task with that id, if there is one. */
    method GetTaskById(taskId: string) returns (r: Option<Task>)
      ensures r == FindTask(board.tasks, taskId)
      ensures r.None? <==> taskId !in TaskIds(board.tasks)
      ensures r.Some? ==> r.value.id == taskId && r.value in board.tasks
    {
      r := FindTask(board.tasks, taskId);
    }
  }
}
