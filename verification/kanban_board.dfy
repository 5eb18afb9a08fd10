/** The Kanban board (KanbanBoard): three columns, each showing the tasks of
    its status sorted by order, and the drop rule that turns a finished drag
    into a status-and-order update of one task. */
module KanbanBoard {
  import opened Common
  import opened Sequences
  import opened TaskStore

  /** The columns, left to right. */
  const Columns: seq<Status> := [TODO, IN_PROGRESS, DONE]

  /** Every status has exactly one column. */
  lemma ColumnsCoverStatuses(s: Status)
    ensures exists i :: 0 <= i < |Columns| && Columns[i] == s
    ensures forall i, j :: 0 <= i < j < |Columns| ==> Columns[i] != Columns[j]
  {
    match s
    case TODO => assert Columns[0] == s;
    case IN_PROGRESS => assert Columns[1] == s;
    case DONE => assert Columns[2] == s;
  }

  /** The test `task => task.status === column.id`. */
  function HasStatus(s: Status): Task -> bool {
    (t: Task) => t.status == s
  }

  function OrderKey(t: Task): int { t.order }

  /** What a column shows: the tasks of that status, sorted by order. */
  function ColumnTasks(tasks: seq<Task>, s: Status): (r: seq<Task>)
    ensures forall t :: t in r <==> t in tasks && t.status == s
    ensures multiset(r) == multiset(Filter(tasks, HasStatus(s)))
    ensures forall i, j :: 0 <= i < j < |r| ==> r[i].order <= r[j].order
  {
    var mine := Filter(tasks, HasStatus(s));
    SortByMembers(mine, OrderKey);
    SortBy(mine, OrderKey)
  }

  /** Ties keep list order: the tasks of one order value appear in a column as
      they appear in the list. */
  lemma ColumnStable(tasks: seq<Task>, s: Status, order: int)
    ensures WithKey(ColumnTasks(tasks, s), OrderKey, order) == WithKey(Filter(tasks, HasStatus(s)), OrderKey, order)
  {
    SortByStable(Filter(tasks, HasStatus(s)), OrderKey, order);
  }

  /** The badge of a column: `tasks.filter(t => t.status === column.id).length`,
      the number of cards the column shows. */
  function ColumnCount(tasks: seq<Task>, s: Status): (n: nat)
    ensures n == |ColumnTasks(tasks, s)|
  {
    |Filter(tasks, HasStatus(s))|
  }

  /** The three columns split the list: every task is in the column of its
      status and in no other, as often as it is in the list. */
  lemma ColumnsPartition(tasks: seq<Task>)
    ensures multiset(Filter(tasks, HasStatus(TODO))) + multiset(Filter(tasks, HasStatus(IN_PROGRESS)))
            + multiset(Filter(tasks, HasStatus(DONE))) == multiset(tasks)
  {
    var a, b, c := Filter(tasks, HasStatus(TODO)), Filter(tasks, HasStatus(IN_PROGRESS)), Filter(tasks, HasStatus(DONE));
    forall t: Task ensures (multiset(a) + multiset(b) + multiset(c))[t] == multiset(tasks)[t] {
      ColumnsCount(tasks, t);
    }
  }

  /** A task is counted once over the three columns, in the column of its status. */
  lemma ColumnsCount(tasks: seq<Task>, t: Task)
    ensures multiset(Filter(tasks, HasStatus(TODO)))[t] + multiset(Filter(tasks, HasStatus(IN_PROGRESS)))[t]
            + multiset(Filter(tasks, HasStatus(DONE)))[t] == multiset(tasks)[t]
  {
    FilterCount(tasks, HasStatus(TODO), t);
    FilterCount(tasks, HasStatus(IN_PROGRESS), t);
    FilterCount(tasks, HasStatus(DONE), t);
  }

  /** The three badges add up to the number of tasks. */
  lemma ColumnCountsSum(tasks: seq<Task>)
    ensures ColumnCount(tasks, TODO) + ColumnCount(tasks, IN_PROGRESS) + ColumnCount(tasks, DONE) == |tasks|
  {
    ColumnsPartition(tasks);
    assert |multiset(tasks)| == |tasks|;
  }

  // ---------------------------------------------------------------------------
  // The drop rule
  // ---------------------------------------------------------------------------

  /** Where a card sits: its column and its index in the column. */
  datatype Location = Location(droppableId: Status, index: int)

  /** What the drag-and-drop library reports when a drag ends; the dragged
      card's id is the task id, and there is no destination when the card was
      dropped outside every column. */
  datatype DropResult = DropResult(draggableId: int, source: Location, destination: Option<Location>)

  /** The update a drop issues: `updateTask(id, { status, order })`. */
  datatype Move = Move(taskId: int, status: Status, order: int)

  function PatchOf(m: Move): TaskPatch {
    TaskPatch(None, None, Some(m.status), Some(m.order))
  }

  /** onDragEnd's decision: no update for a drop outside the columns, for a drop
      back onto the same place, or for a card whose task is not in the list;
      otherwise the task takes the destination column as status and the
      destination index as order. */
  function DropDecision(tasks: seq<Task>, result: DropResult): (r: Option<Move>)
    ensures r.None? <==> result.destination.None? || result.destination.value == result.source
                         || forall i :: 0 <= i < |tasks| ==> tasks[i].id != result.draggableId
    ensures r.Some? ==> r.value == Move(result.draggableId, result.destination.value.droppableId,
                                        result.destination.value.index)
  {
    match result.destination
    case None => None
    case Some(dest) =>
      if dest.droppableId == result.source.droppableId && dest.index == result.source.index then None
      else if exists i :: 0 <= i < |tasks| && tasks[i].id == result.draggableId
      then Some(Move(result.draggableId, dest.droppableId, dest.index))
      else None
  }

  /** A drop moves only the dragged task: it lands in the destination column
      with the destination index as its order, and no other task is renumbered. */
  lemma DropMovesOnlyThatTask(tasks: seq<Task>, result: DropResult)
    requires DropDecision(tasks, result).Some?
    ensures var m := DropDecision(tasks, result).value;
            var after := UpdateById(tasks, m.taskId, PatchOf(m));
            |after| == |tasks|
            && (forall i :: 0 <= i < |tasks| && tasks[i].id == m.taskId ==>
                  after[i] in ColumnTasks(after, m.status) && after[i].order == m.order)
            && (forall i :: 0 <= i < |tasks| && tasks[i].id != m.taskId ==> after[i] == tasks[i])
  {
    var m := DropDecision(tasks, result).value;
    var after := UpdateById(tasks, m.taskId, PatchOf(m));
    forall i | 0 <= i < |tasks| && tasks[i].id == m.taskId
      ensures after[i] in ColumnTasks(after, m.status)
    {
      assert after[i] in after;
    }
  }

  /** onDragEnd: the decision, then the store's optimistic update. */
  method OnDragEnd(store: TaskState, result: DropResult, requestOk: bool, refetch: Option<seq<Task>>)
    modifies store
    ensures DropDecision(old(store.tasks), result).None? ==>
              store.tasks == old(store.tasks) && store.isLoading == old(store.isLoading)
    ensures DropDecision(old(store.tasks), result).Some? && requestOk ==>
              var m := DropDecision(old(store.tasks), result).value;
              store.tasks == UpdateById(old(store.tasks), m.taskId, PatchOf(m))
              && store.isLoading == old(store.isLoading)
    ensures DropDecision(old(store.tasks), result).Some? && !requestOk ==>
              var m := DropDecision(old(store.tasks), result).value;
              !store.isLoading
              && store.tasks == if refetch.Some? then refetch.value
                                else UpdateById(old(store.tasks), m.taskId, PatchOf(m))
  {
    var decision := DropDecision(store.tasks, result);
    if decision.Some? {
      var m := decision.value;
      store.UpdateTask(m.taskId, PatchOf(m), requestOk, refetch);
    }
  }
}
