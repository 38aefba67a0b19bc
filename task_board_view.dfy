/** The board logic of the `TaskBoard` component (src/components/TaskBoard.tsx):
    the rule that turns a drop into a `moveTask` call, the order offered to
    a new stage, and the order-sorted stage listing, which sorts the board's
    own stage array in place. */
module TaskBoardView {
  import opened TaskTypes
  import opened Membership
  import opened StageOrder
  import opened BoardOps
  import opened BoardInvariants
  import opened UseTaskBoard

  /** The arguments of the `moveTask` call a drop issues; it never passes an index. */
  datatype MoveRequest = MoveRequest(taskId: string, fromStageId: string, toStageId: string)

  /** `stages.find(stage => stage.taskIds.includes(id))`: the first stage holding the id. */
  function StageHolding(stages: seq<StageType>, id: string): (r: Option<StageType>)
    ensures r.None? <==> forall i :: 0 <= i < |stages| ==> id !in stages[i].taskIds
    ensures r.Some? ==> (id in r.value.taskIds &&
      exists j :: 0 <= j < |stages| && stages[j] == r.value && forall i :: 0 <= i < j ==> id !in stages[i].taskIds)
  {
    if |stages| == 0 then None
    else if id in stages[0].taskIds then Some(stages[0])
    else
      var r := StageHolding(stages[1..], id);
      if r.Some? then
        var j :| 0 <= j < |stages[1..]| && stages[1..][j] == r.value &&
          forall i :: 0 <= i < j ==> id !in stages[1..][i].taskIds;
        assert stages[j + 1] == r.value;
        r
      else r
  }

  /** `handleDragEnd`'s decision: no move without a drop target, for an id
      that is no task or that no stage holds, for a drop on the task's own
      stage or on something that is not a stage; otherwise one move from the
      first stage holding the task to the stage dropped on. */
  function DropMove(b: Board, activeId: string, overId: Option<string>): (r: Option<MoveRequest>)
    ensures overId.None? ==> r.None?
    ensures activeId !in TaskIds(b.tasks) ==> r.None?
    ensures StageHolding(b.stages, activeId).None? ==> r.None?
    ensures r.Some? <==>
      (overId.Some? && activeId in TaskIds(b.tasks) && StageHolding(b.stages, activeId).Some? &&
       overId.value != StageHolding(b.stages, activeId).value.id && overId.value in StageIds(b.stages))
    ensures r.Some? ==>
      r.value == MoveRequest(activeId, StageHolding(b.stages, activeId).value.id, overId.value)
  {
    if overId.None? then None
    else if FindTask(b.tasks, activeId).None? then None
    else
      match StageHolding(b.stages, activeId)
      case None => None
      case Some(current) =>
        if overId.value != current.id && FindStage(b.stages, overId.value).Some?
        then Some(MoveRequest(activeId, current.id, overId.value))
        else None
  }

  /** The move a drop issues keeps the invariant, never has the same source
      and target, and appends the task to the end of the target stage. */
  lemma DropMoveKeepsWellFormed(b: Board, activeId: string, overId: Option<string>, now: nat)
    requires WellFormed(b) && DropMove(b, activeId, overId).Some?
    ensures var m := DropMove(b, activeId, overId).value;
      var r := MoveTask(b, m.taskId, m.fromStageId, m.toStageId, None, now);
      m.fromStageId != m.toStageId && WellFormed(r) &&
      forall j :: 0 <= j < |b.stages| && b.stages[j].id == m.toStageId ==>
        r.stages[j].taskIds == b.stages[j].taskIds + [activeId]
  {
    var i, j := DropMoveStages(b, activeId, overId);
    MoveTaskKeepsWellFormed(b, activeId, i, j, None, now);
    DropMoveAppends(b, activeId, overId, now);
  }

  /** With unique stage ids, the stage a drop targets ends with the task
      appended. */
  lemma DropMoveAppends(b: Board, activeId: string, overId: Option<string>, now: nat)
    requires Distinct(StageIds(b.stages)) && DropMove(b, activeId, overId).Some?
    ensures var m := DropMove(b, activeId, overId).value;
      var r := MoveTask(b, m.taskId, m.fromStageId, m.toStageId, None, now);
      forall j :: 0 <= j < |b.stages| && b.stages[j].id == m.toStageId ==>
        r.stages[j].taskIds == b.stages[j].taskIds + [activeId]
  {
    var i, j := DropMoveStages(b, activeId, overId);
    OnlyStageWithId(b.stages, j);
    MoveTaskTwoStages(b, activeId, i, j, None, now);
  }

  /** The positions of the two stages a drop's move names: the first stage
      holding the task, and a different stage it was dropped on. */
  lemma DropMoveStages(b: Board, activeId: string, overId: Option<string>) returns (i: nat, j: nat)
    requires DropMove(b, activeId, overId).Some?
    ensures i < |b.stages| && j < |b.stages| && i != j && activeId in b.stages[i].taskIds
    ensures DropMove(b, activeId, overId).value == MoveRequest(activeId, b.stages[i].id, b.stages[j].id)
  {
    var current := StageHolding(b.stages, activeId).value;
    var k :| 0 <= k < |b.stages| && b.stages[k] == current &&
      forall p :: 0 <= p < k ==> activeId !in b.stages[p].taskIds;
    i := k;
    j := StagePosition(b.stages, overId.value);
  }

  /** `Math.max(...stages.map(s => s.order), 0)`. */
  function MaxOrder(stages: seq<StageType>): (m: int)
    ensures m >= 0
    ensures forall i :: 0 <= i < |stages| ==> stages[i].order <= m
    ensures m == 0 || exists i :: 0 <= i < |stages| && stages[i].order == m
  {
    if |stages| == 0 then 0
    else
      var rest := MaxOrder(stages[1..]);
      if stages[0].order > rest then stages[0].order
      else
        assert forall i :: 1 <= i < |stages| ==> stages[i] == stages[1..][i - 1];
        rest
  }

  /** `nextOrder`: one more than the largest order, counting 0 as an order. */
  function NextOrder(b: Board): (n: int)
    ensures n >= 1
    ensures forall i :: 0 <= i < |b.stages| ==> b.stages[i].order < n
    ensures n == 1 || exists i :: 0 <= i < |b.stages| && b.stages[i].order == n - 1
  {
    MaxOrder(b.stages) + 1
  }

  /** On sorted stages, a stage created with `nextOrder` goes last and
      nothing else moves. */
  lemma CreateStageAtNextOrderIsLast(b: Board, title: string, color: Option<string>, newId: string)
    requires Sorted(b.stages)
    ensures CreateStage(b, StageData(title, NextOrder(b), color), newId).stages ==
            b.stages + [NewStage(StageData(title, NextOrder(b), color), newId, b.id)]
  {
    var s := b.stages + [NewStage(StageData(title, NextOrder(b), color), newId, b.id)];
    assert Sorted(s);
    SortByOrderOfSorted(s);
  }

  /** The component's state around the store: the id being dragged. */
  class TaskBoardView {
    const store: TaskBoardStore
    var activeId: Option<string>

    constructor(initialBoard: Board)
      ensures fresh(store) && store.board == initialBoard && activeId.None?
    {
      store := new TaskBoardStore(initialBoard);
      activeId := None;
    }

    /** `handleDragStart`: remembers the dragged id. */
    method HandleDragStart(id: string)
      modifies this
      ensures activeId == Some(id)
    {
      activeId := Some(id);
    }

    /** `handleDragEnd`: issues the move `DropMove` decides on, if any, and
        always clears the dragged id. */
    method HandleDragEnd(draggedId: string, overId: Option<string>, now: nat)
      modifies this, store
      ensures activeId.None?
      ensures DropMove(old(store.board), draggedId, overId).None? ==> store.board == old(store.board)
      ensures DropMove(old(store.board), draggedId, overId).Some? ==>
        var m := DropMove(old(store.board), draggedId, overId).value;
        store.board == MoveTask(old(store.board), m.taskId, m.fromStageId, m.toStageId, None, now)
      ensures old(WellFormed(store.board)) ==> WellFormed(store.board)
    {
      var prev := store.board;
      var request := DropMove(prev, draggedId, overId);
      if request.Some? {
        store.MoveTask(request.value.taskId, request.value.fromStageId, request.value.toStageId, None, now);
        if WellFormed(prev) {
          DropMoveKeepsWellFormed(prev, draggedId, overId, now);
        }
      }
      activeId := None;
    }

    /** `board.stages.sort((a, b) => a.order - b.order)` while rendering: the
        board's own stage list is sorted in place and then listed. */
    method RenderStages() returns (listed: seq<StageType>)
      modifies store
      ensures store.board == old(store.board).(stages := SortByOrder(old(store.board).stages))
      ensures listed == store.board.stages
      ensures Sorted(listed) && multiset(listed) == multiset(old(store.board).stages)
      ensures old(Sorted(store.board.stages)) ==> store.board == old(store.board)
      ensures old(Consistent(store.board)) ==> WellFormed(store.board)
    {
      var stages := store.board.stages;
      var a := new StageType[|stages|](i requires 0 <= i < |stages| => stages[i]);
      assert a[..] == stages;
      SortStagesInPlace(a);
      listed := a[..];
      store.board := store.board.(stages := listed);
      SortByOrderSorted(stages);
      SortByOrderPermutes(stages);
      if Sorted(stages) {
        SortByOrderOfSorted(stages);
      }
      if Consistent(old(store.board)) {
        RenderKeepsConsistent(old(store.board));
      }
    }
  }

  /** Sorting the stage list keeps the membership invariant. */
  lemma RenderKeepsConsistent(b: Board)
    requires Consistent(b)
    ensures WellFormed(b.(stages := SortByOrder(b.stages)))
  {
    forall y ensures Count(StageIds(SortByOrder(b.stages)), y) <= 1 {
      SortByOrderStageIds(b.stages, y);
    }
    forall x ensures Occurrences(SortByOrder(b.stages), x) == Occurrences(b.stages, x) {
      SortByOrderOccurrences(b.stages, x);
    }
    SortByOrderSorted(b.stages);
  }
}
