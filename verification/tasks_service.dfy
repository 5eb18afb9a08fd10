/** The task record store (TasksService): tasks live in per-lane orderings
    scoped by user, status and project; `create` appends at the end of its
    lane, `update` overwrites fields verbatim, and every single-task operation
    first checks that the task belongs to the caller. The database table is a
    list of rows in insertion order. */
module TasksService {
  import opened Common
  import opened Sequences

  /** A row of the task table. `projectId` is `None` for a task outside any project. */
  datatype Task = Task(
    id: int,
    title: string,
    description: Option<string>,
    status: Status,
    order: int,
    userId: int,
    projectId: Option<int>)

  /** The body of a create request; `status` and `projectId` may be omitted. */
  datatype CreateTaskInput = CreateTaskInput(
    title: string,
    description: Option<string>,
    status: Option<Status>,
    projectId: Option<int>)

  /** The body of an update request: every field may be omitted. */
  datatype UpdateTaskInput = UpdateTaskInput(
    title: Option<string>,
    description: Option<string>,
    status: Option<Status>,
    order: Option<int>)

  /** The lane a new task is appended to: `{ userId, status, projectId: projectId || null }`. */
  datatype Scope = Scope(userId: int, status: Status, projectId: Option<int>)

  // ---------------------------------------------------------------------------
  // The next-order computation
  // ---------------------------------------------------------------------------

  /** The lane of a create request. `projectId || null` sends both a missing
      project id and the falsy id 0 to the null project. */
  function LaneOf(userId: int, status: Status, projectId: Option<int>): (sc: Scope)
    ensures sc.userId == userId && sc.status == status
    ensures sc.projectId.None? <==> projectId.None? || projectId.value == 0
    ensures sc.projectId.Some? ==> sc.projectId == projectId
  {
    Scope(userId, status, if projectId == Some(0) then None else projectId)
  }

  predicate InScope(t: Task, sc: Scope) {
    t.userId == sc.userId && t.status == sc.status && t.projectId == sc.projectId
  }

  /** The `order` of `findFirst({ where: scope, orderBy: { order: 'desc' } })`:
      the largest order in the lane, `None` when the lane is empty. */
  function MaxOrder(ts: seq<Task>, sc: Scope): (m: Option<int>)
    ensures m.None? <==> forall i :: 0 <= i < |ts| ==> !InScope(ts[i], sc)
    ensures m.Some? ==> exists i :: 0 <= i < |ts| && InScope(ts[i], sc) && ts[i].order == m.value
    ensures m.Some? ==> forall i :: 0 <= i < |ts| && InScope(ts[i], sc) ==> ts[i].order <= m.value
  {
    if |ts| == 0 then None
    else
      var init := ts[..|ts| - 1];
      var t := ts[|ts| - 1];
      var rest := MaxOrder(init, sc);
      assert forall i :: 0 <= i < |init| ==> init[i] == ts[i];
      if !InScope(t, sc) then rest
      else if rest.None? || rest.value < t.order then Some(t.order)
      else rest
  }

  /** `lastTask ? lastTask.order + 1 : 0`: 0 in an empty lane, otherwise one
      past the largest order in it. */
  function NextOrder(ts: seq<Task>, sc: Scope): (r: int)
    ensures forall i :: 0 <= i < |ts| && InScope(ts[i], sc) ==> ts[i].order < r
    ensures (forall i :: 0 <= i < |ts| ==> !InScope(ts[i], sc)) ==> r == 0
    ensures (exists i :: 0 <= i < |ts| && InScope(ts[i], sc)) ==>
              exists i :: 0 <= i < |ts| && InScope(ts[i], sc) && ts[i].order == r - 1
  {
    match MaxOrder(ts, sc)
    case None => 0
    case Some(m) => m + 1
  }

  /** The tasks of one lane, in store order. */
  function Lane(ts: seq<Task>, sc: Scope): (r: seq<Task>)
    ensures forall i :: 0 <= i < |r| ==> InScope(r[i], sc) && r[i] in ts
    ensures forall i :: 0 <= i < |ts| && InScope(ts[i], sc) ==> ts[i] in r
  {
    Filter(ts, (t: Task) => InScope(t, sc))
  }

  /** Two stores whose lanes hold the same tasks have the same next order. */
  lemma NextOrderSameTasks(ts: seq<Task>, us: seq<Task>, sc: Scope)
    requires forall i :: 0 <= i < |ts| && InScope(ts[i], sc) ==> ts[i] in us
    requires forall i :: 0 <= i < |us| && InScope(us[i], sc) ==> us[i] in ts
    ensures NextOrder(ts, sc) == NextOrder(us, sc)
  {
    if exists i :: 0 <= i < |ts| && InScope(ts[i], sc) {
      var i :| 0 <= i < |ts| && InScope(ts[i], sc);
      var k :| 0 <= k < |us| && us[k] == ts[i];
      NextOrderBound(ts, us, sc);
      NextOrderBound(us, ts, sc);
    } else {
      forall k | 0 <= k < |us| ensures !InScope(us[k], sc) {
      }
    }
  }

  /** When every task of a non-empty lane of `ts` is also in `us`, `us` has the higher next order. */
  lemma NextOrderBound(ts: seq<Task>, us: seq<Task>, sc: Scope)
    requires exists i :: 0 <= i < |ts| && InScope(ts[i], sc)
    requires forall i :: 0 <= i < |ts| && InScope(ts[i], sc) ==> ts[i] in us
    ensures NextOrder(ts, sc) <= NextOrder(us, sc)
  {
    var i :| 0 <= i < |ts| && InScope(ts[i], sc) && ts[i].order == NextOrder(ts, sc) - 1;
    var k :| 0 <= k < |us| && us[k] == ts[i];
  }

  /** Only the tasks of the lane matter: the next order is the same when every
      task of another user, status or project is dropped. */
  lemma NextOrderOnlyLane(ts: seq<Task>, sc: Scope)
    ensures NextOrder(ts, sc) == NextOrder(Lane(ts, sc), sc)
  {
    NextOrderSameTasks(ts, Lane(ts, sc), sc);
  }

  /** Two stores whose lanes hold the same tasks give the same next order,
      however their other tasks differ. */
  lemma NextOrderSameLane(ts1: seq<Task>, ts2: seq<Task>, sc: Scope)
    requires Lane(ts1, sc) == Lane(ts2, sc)
    ensures NextOrder(ts1, sc) == NextOrder(ts2, sc)
  {
    NextOrderOnlyLane(ts1, sc);
    NextOrderOnlyLane(ts2, sc);
  }

  /** Appending a task of another lane leaves the next order alone. */
  lemma NextOrderAppendOther(ts: seq<Task>, t: Task, sc: Scope)
    requires !InScope(t, sc)
    ensures NextOrder(ts + [t], sc) == NextOrder(ts, sc)
  {
    assert (ts + [t])[..|ts|] == ts;
  }

  /** Appending a task of the lane at the next order moves the next order up by one. */
  lemma NextOrderAppendLane(ts: seq<Task>, t: Task, sc: Scope)
    requires InScope(t, sc) && t.order == NextOrder(ts, sc)
    ensures NextOrder(ts + [t], sc) == t.order + 1
  {
    assert (ts + [t])[..|ts|] == ts;
  }

  /** Sequential creates in one lane that starts empty get the orders 0, 1, 2, ... */
  lemma {:induction false} SequentialOrders(ts: seq<Task>, created: seq<Task>, sc: Scope)
    requires forall i :: 0 <= i < |ts| ==> !InScope(ts[i], sc)
    requires forall i :: 0 <= i < |created| ==> InScope(created[i], sc)
    requires forall i :: 0 <= i < |created| ==> created[i].order == NextOrder(ts + created[..i], sc)
    ensures forall i :: 0 <= i < |created| ==> created[i].order == i
    ensures NextOrder(ts + created, sc) == |created|
  {
    if |created| == 0 {
      assert ts + created == ts;
    } else {
      var n := |created| - 1;
      var init := created[..n];
      assert forall i :: 0 <= i < n ==> init[..i] == created[..i];
      SequentialOrders(ts, init, sc);
      var before := ts + init;
      var last := created[n];
      assert last.order == NextOrder(before, sc) == n;
      NextOrderAppendLane(before, last, sc);
      SplitLast(ts, created);
      OrdersExtend(created, n);
    }
  }

  lemma OrdersExtend(created: seq<Task>, n: nat)
    requires n == |created| - 1
    requires forall i :: 0 <= i < n ==> created[..n][i].order == i
    requires created[n].order == n
    ensures forall i :: 0 <= i < |created| ==> created[i].order == i
  {
    forall i | 0 <= i < |created| ensures created[i].order == i {
      if i < n { assert created[i] == created[..n][i]; }
    }
  }

  lemma SplitLast(ts: seq<Task>, created: seq<Task>)
    requires |created| >= 1
    ensures ts + created == (ts + created[..|created| - 1]) + [created[|created| - 1]]
  {
    assert created == created[..|created| - 1] + [created[|created| - 1]];
  }

  /** A lane holds at most one task per order value as long as only `create`
      writes to it; `update` can break this: moving a task to an order already
      taken leaves two tasks sharing it, and nothing is renumbered. */
  lemma UpdateCanShareOrder()
    ensures var a := Task(1, "a", None, TODO, 0, 7, None);
            var b := Task(2, "b", None, TODO, 1, 7, None);
            var after := Patched([a, b], 2, UpdateTaskInput(None, None, None, Some(0)));
            after[0].order == after[1].order == 0 && after[0] == a
  {
    var a := Task(1, "a", None, TODO, 0, 7, None);
    var b := Task(2, "b", None, TODO, 1, 7, None);
    var after := Patched([a, b], 2, UpdateTaskInput(None, None, None, Some(0)));
    assert after[1] == Apply(b, UpdateTaskInput(None, None, None, Some(0)));
  }

  // ---------------------------------------------------------------------------
  // Updates and deletions on the rows
  // ---------------------------------------------------------------------------

  /** `prisma.task.update({ data })` on one row: each supplied field is written
      verbatim, each omitted one is kept; id, owner and project never change. */
  function Apply(t: Task, u: UpdateTaskInput): (r: Task)
    ensures r.id == t.id && r.userId == t.userId && r.projectId == t.projectId
    ensures r.title == (if u.title.Some? then u.title.value else t.title)
    ensures r.description == (if u.description.Some? then u.description else t.description)
    ensures r.status == (if u.status.Some? then u.status.value else t.status)
    ensures r.order == (if u.order.Some? then u.order.value else t.order)
  {
    Task(t.id, u.title.GetOr(t.title),
         if u.description.Some? then u.description else t.description,
         u.status.GetOr(t.status), u.order.GetOr(t.order), t.userId, t.projectId)
  }

  /** Applying the same update twice is applying it once. */
  lemma ApplyIdempotent(t: Task, u: UpdateTaskInput)
    ensures Apply(Apply(t, u), u) == Apply(t, u)
  {
  }

  /** The table after `update({ where: { id } })`: the row with that id is
      updated, every other row and every position is kept. */
  function Patched(ts: seq<Task>, id: int, u: UpdateTaskInput): (r: seq<Task>)
    ensures |r| == |ts|
    ensures forall i :: 0 <= i < |ts| ==> r[i] == if ts[i].id == id then Apply(ts[i], u) else ts[i]
  {
    seq(|ts|, i requires 0 <= i < |ts| => if ts[i].id == id then Apply(ts[i], u) else ts[i])
  }

  /** The table after `delete({ where: { id } })`. */
  function Without(ts: seq<Task>, id: int): (r: seq<Task>)
    ensures forall t :: t in r <==> t in ts && t.id != id
  {
    Filter(ts, OtherId(id))
  }

  /** The test `delete({ where: { id } })` keeps a row by. */
  function OtherId(id: int): Task -> bool {
    (t: Task) => t.id != id
  }

  predicate UniqueIds(ts: seq<Task>) {
    forall i, j :: 0 <= i < j < |ts| ==> ts[i].id != ts[j].id
  }

  /** With unique ids, deleting by id takes out exactly one row and keeps the
      others in their order. */
  lemma WithoutOne(ts: seq<Task>, k: nat)
    requires UniqueIds(ts) && k < |ts|
    ensures Without(ts, ts[k].id) == ts[..k] + ts[k + 1..]
  {
    var p := OtherId(ts[k].id);
    forall i | 0 <= i < |ts| && i != k ensures p(ts[i]) {
      if i < k { assert ts[i].id != ts[k].id; } else { assert ts[k].id != ts[i].id; }
    }
    FilterDropOne(ts, k, p);
  }

  /** Cutting one row out keeps the ids unique and in range. */
  lemma DropKeepsIds(ts: seq<Task>, k: nat, nextId: int)
    requires k < |ts| && UniqueIds(ts)
    requires forall i :: 0 <= i < |ts| ==> 1 <= ts[i].id < nextId
    ensures var rest := ts[..k] + ts[k + 1..];
            UniqueIds(rest) && forall i :: 0 <= i < |rest| ==> 1 <= rest[i].id < nextId
  {
    var rest := ts[..k] + ts[k + 1..];
    forall i | 0 <= i < |rest| ensures rest[i] == ts[if i < k then i else i + 1] {
    }
  }

  /** The first row with that id and owner: `findFirst({ where: { id, userId } })`. */
  function FindIndex(ts: seq<Task>, id: int, userId: int): (r: Option<nat>)
    ensures r.Some? ==> r.value < |ts| && ts[r.value].id == id && ts[r.value].userId == userId
    ensures r.None? <==> forall i :: 0 <= i < |ts| ==> ts[i].id != id || ts[i].userId != userId
  {
    if |ts| == 0 then None
    else if ts[0].id == id && ts[0].userId == userId then Some(0)
    else
      match FindIndex(ts[1..], id, userId)
      case None => None
      case Some(k) => Some(k + 1)
  }

  /** The rows of a user, restricted to one project when one is given. */
  predicate Listed(t: Task, userId: int, projectId: Option<int>) {
    t.userId == userId && (projectId.None? || t.projectId == projectId)
  }

  function OrderKey(t: Task): int { t.order }

  // ---------------------------------------------------------------------------
  // The service
  // ---------------------------------------------------------------------------

  class TaskService {
    /** The task table, in insertion order. */
    var tasks: seq<Task>
    /** The next value of the auto-increment id. */
    var nextId: int

    /** Ids are positive, below the next id, and unique. */
    ghost predicate Valid()
      reads this
    {
      && nextId >= 1
      && (forall i :: 0 <= i < |tasks| ==> 1 <= tasks[i].id < nextId)
      && UniqueIds(tasks)
    }

    constructor ()
      ensures Valid() && tasks == [] && nextId == 1
    {
      tasks := [];
      nextId := 1;
    }

    /** create: the status defaults to TODO, the order is the lane's next order,
        and the row is appended with the caller as owner and the project id as given. */
    method Create(userId: int, input: CreateTaskInput) returns (t: Task)
      requires Valid()
      modifies this
      ensures Valid() && nextId == old(nextId) + 1
      ensures t.id == old(nextId) && t.userId == userId
      ensures t.title == input.title && t.description == input.description && t.projectId == input.projectId
      ensures t.status == (if input.status.Some? then input.status.value else TODO)
      ensures t.order == NextOrder(old(tasks), LaneOf(userId, t.status, input.projectId))
      ensures tasks == old(tasks) + [t]
    {
      var status := input.status.GetOr(TODO);
      var order := NextOrder(tasks, LaneOf(userId, status, input.projectId));
      t := Task(nextId, input.title, input.description, status, order, userId, input.projectId);
      tasks := tasks + [t];
      nextId := nextId + 1;
    }

    /** findAll: exactly the caller's tasks (of one project when `projectId` is
        given), each as often as stored, in non-decreasing order. */
    method FindAll(userId: int, projectId: Option<int>) returns (r: seq<Task>)
      ensures forall t :: t in r <==> t in tasks && Listed(t, userId, projectId)
      ensures multiset(r) == multiset(Filter(tasks, (t: Task) => Listed(t, userId, projectId)))
      ensures SortedBy(r, OrderKey)
    {
      var mine := Filter(tasks, (t: Task) => Listed(t, userId, projectId));
      r := SortBy(mine, OrderKey);
      SortByMembers(mine, OrderKey);
    }

    /** findOne: the caller's task with that id, or NotFound when the caller has none. */
    method FindOne(id: int, userId: int) returns (r: Result<Task>)
      ensures r.Ok? <==> exists i :: 0 <= i < |tasks| && tasks[i].id == id && tasks[i].userId == userId
      ensures r.Ok? ==> r.value in tasks && r.value.id == id && r.value.userId == userId
      ensures r.Err? ==> r.error == NotFound
    {
      match FindIndex(tasks, id, userId)
      case None => r := Err(NotFound);
      case Some(k) => r := Ok(tasks[k]);
    }

    /** update: after the ownership check the supplied fields of that one task
        are written verbatim and every other task keeps its order; a task the
        caller does not own gives NotFound and changes nothing. */
    method Update(id: int, userId: int, u: UpdateTaskInput) returns (r: Result<Task>)
      requires Valid()
      modifies this
      ensures Valid() && nextId == old(nextId)
      ensures r.Err? <==> forall i :: 0 <= i < |old(tasks)| ==> old(tasks)[i].id != id || old(tasks)[i].userId != userId
      ensures r.Err? ==> r.error == NotFound && tasks == old(tasks)
      ensures r.Ok? ==> tasks == Patched(old(tasks), id, u)
      ensures r.Ok? ==> exists i :: 0 <= i < |old(tasks)| && old(tasks)[i].id == id && old(tasks)[i].userId == userId
                                   && r.value == Apply(old(tasks)[i], u) == tasks[i]
    {
      var found := FindOne(id, userId);
      if found.Err? {
        return Err(NotFound);
      }
      var k := FindIndex(tasks, id, userId).value;
      tasks := Patched(tasks, id, u);
      r := Ok(tasks[k]);
    }

    /** remove: after the ownership check exactly that task is deleted and the
        others keep their relative order; a task the caller does not own gives
        NotFound and changes nothing. */
    method Remove(id: int, userId: int) returns (r: Result<Task>)
      requires Valid()
      modifies this
      ensures Valid() && nextId == old(nextId)
      ensures r.Err? <==> forall i :: 0 <= i < |old(tasks)| ==> old(tasks)[i].id != id || old(tasks)[i].userId != userId
      ensures r.Err? ==> r.error == NotFound && tasks == old(tasks)
      ensures r.Ok? ==> tasks == Without(old(tasks), id)
      ensures r.Ok? ==> exists i :: 0 <= i < |old(tasks)| && old(tasks)[i] == r.value && r.value.userId == userId
                                   && r.value.id == id && tasks == old(tasks)[..i] + old(tasks)[i + 1..]
    {
      var found := FindOne(id, userId);
      if found.Err? {
        return Err(NotFound);
      }
      var k := FindIndex(tasks, id, userId).value;
      WithoutOne(tasks, k);
      DropKeepsIds(tasks, k, nextId);
      r := Ok(tasks[k]);
      tasks := Without(tasks, id);
    }
  }
}
