/** The board's entities, as declared in src/types/task.ts.
    Ids and text are strings; `Date` values are abstract timestamps (`nat`);
    a stage's numeric `order` is an `int`. */
module TaskTypes {

  datatype Option<T> = None | Some(value: T)

  datatype Priority = Low | Medium | High

  datatype Task = Task(
    id: string,
    title: string,
    description: Option<string>,
    priority: Priority,
    createdAt: nat,
    updatedAt: nat,
    userId: string)

  /** A column of the board. `taskIds` is both the membership of the stage
      and the display order of its tasks. */
  datatype StageType = StageType(
    id: string,
    title: string,
    order: int,
    color: Option<string>,
    taskIds: seq<string>,
    boardId: string)

  datatype Board = Board(
    id: string,
    title: string,
    description: Option<string>,
    userId: string,
    stages: seq<StageType>,
    tasks: seq<Task>,
    createdAt: nat,
    updatedAt: nat)

  /** The ids of a task list, position by position. */
  function TaskIds(tasks: seq<Task>): seq<string>
  {
    seq(|tasks|, i requires 0 <= i < |tasks| => tasks[i].id)
  }

  /** The ids of a stage list, position by position. */
  function StageIds(stages: seq<StageType>): seq<string>
  {
    seq(|stages|, i requires 0 <= i < |stages| => stages[i].id)
  }

  lemma TaskIdsAppend(a: seq<Task>, b: seq<Task>)
    ensures TaskIds(a + b) == TaskIds(a) + TaskIds(b)
  {
  }

  lemma StageIdsAppend(a: seq<StageType>, b: seq<StageType>)
    ensures StageIds(a + b) == StageIds(a) + StageIds(b)
  {
  }
}
