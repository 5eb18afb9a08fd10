/** The client task store (`useTaskStore`): the `tasks` list and the
    `isLoading` flag, replaced by each action. Requests to the backend are
    parameters: a request's response is `Some` when it succeeded, `None` when
    it threw. */
module TaskStore {
  import opened Common
  import opened Sequences

  /** An attachment as the client sees it; `kind` is the `type` field. */
  datatype Attachment = Attachment(id: int, url: string, filename: string, kind: string)

  /** The project a task belongs to, as included by the backend. */
  datatype ProjectRef = ProjectRef(id: int, name: string)

  /** A task as the client sees it; `project` and `attachments` may be absent. */
  datatype Task = Task(
    id: int,
    title: string,
    description: Option<string>,
    status: Status,
    order: int,
    userId: int,
    project: Option<ProjectRef>,
    attachments: Option<seq<Attachment>>)

  /** The `Partial<Task>` the store merges into a task: a field is written when present. */
  datatype TaskPatch = TaskPatch(
    title: Option<string>,
    description: Option<string>,
    status: Option<Status>,
    order: Option<int>)

  // ---------------------------------------------------------------------------
  // The list transforms
  // ---------------------------------------------------------------------------

  /** `{ ...t, ...data }`: the fields present in the patch win, the rest is kept. */
  function Merge(t: Task, p: TaskPatch): (r: Task)
    ensures r.id == t.id && r.userId == t.userId && r.project == t.project && r.attachments == t.attachments
    ensures r.title == (if p.title.Some? then p.title.value else t.title)
    ensures r.description == (if p.description.Some? then p.description else t.description)
    ensures r.status == (if p.status.Some? then p.status.value else t.status)
    ensures r.order == (if p.order.Some? then p.order.value else t.order)
  {
    Task(t.id, p.title.GetOr(t.title), if p.description.Some? then p.description else t.description,
         p.status.GetOr(t.status), p.order.GetOr(t.order), t.userId, t.project, t.attachments)
  }

  /** `tasks.map(t => t.id === id ? { ...t, ...data } : t)`. */
  function UpdateById(ts: seq<Task>, id: int, p: TaskPatch): (r: seq<Task>)
    ensures |r| == |ts|
    ensures forall i :: 0 <= i < |ts| ==> r[i].id == ts[i].id
    ensures forall i :: 0 <= i < |ts| && ts[i].id != id ==> r[i] == ts[i]
    ensures forall i :: 0 <= i < |ts| && ts[i].id == id ==> r[i] == Merge(ts[i], p)
  {
    seq(|ts|, i requires 0 <= i < |ts| => if ts[i].id == id then Merge(ts[i], p) else ts[i])
  }

  /** Merging the same patch twice is merging it once. */
  lemma UpdateByIdIdempotent(ts: seq<Task>, id: int, p: TaskPatch)
    ensures UpdateById(UpdateById(ts, id, p), id, p) == UpdateById(ts, id, p)
  {
  }

  /** Updates of two different tasks commute. */
  lemma UpdateByIdCommutes(ts: seq<Task>, id1: int, p1: TaskPatch, id2: int, p2: TaskPatch)
    requires id1 != id2
    ensures UpdateById(UpdateById(ts, id1, p1), id2, p2) == UpdateById(UpdateById(ts, id2, p2), id1, p1)
  {
  }

  /** An update of a task that is not in the list changes nothing. */
  lemma UpdateByIdAbsent(ts: seq<Task>, id: int, p: TaskPatch)
    requires forall i :: 0 <= i < |ts| ==> ts[i].id != id
    ensures UpdateById(ts, id, p) == ts
  {
  }

  /** The test `tasks.filter(t => t.id !== id)` keeps a task by. */
  function OtherId(id: int): Task -> bool {
    (t: Task) => t.id != id
  }

  /** `tasks.filter(t => t.id !== id)`: exactly the tasks with another id, in their order. */
  function RemoveById(ts: seq<Task>, id: int): (r: seq<Task>)
    ensures forall t :: t in r <==> t in ts && t.id != id
    ensures forall t: Task :: t.id != id ==> multiset(r)[t] == multiset(ts)[t]
  {
    var r := Filter(ts, OtherId(id));
    forall t: Task | t.id != id ensures multiset(r)[t] == multiset(ts)[t] {
      FilterCount(ts, OtherId(id), t);
    }
    r
  }

  /** Deleting twice is deleting once. */
  lemma RemoveByIdIdempotent(ts: seq<Task>, id: int)
    ensures RemoveById(RemoveById(ts, id), id) == RemoveById(ts, id)
  {
    var r := RemoveById(ts, id);
    FilterAll(r, OtherId(id));
  }

  /** Deleting from a concatenation deletes from each part: relative order is kept. */
  lemma RemoveByIdConcat(a: seq<Task>, b: seq<Task>, id: int)
    ensures RemoveById(a + b, id) == RemoveById(a, id) + RemoveById(b, id)
  {
    FilterConcat(a, b, OtherId(id));
  }

  /** `t.attachments || []`. */
  function AttachmentsOf(t: Task): seq<Attachment> {
    if t.attachments.Some? then t.attachments.value else []
  }

  /** After an upload: the attachment goes at the end of that task's list, a
      missing list counting as empty; every other task is untouched. */
  function AddAttachment(ts: seq<Task>, taskId: int, a: Attachment): (r: seq<Task>)
    ensures |r| == |ts|
    ensures forall i :: 0 <= i < |ts| && ts[i].id != taskId ==> r[i] == ts[i]
    ensures forall i :: 0 <= i < |ts| && ts[i].id == taskId ==>
              r[i] == ts[i].(attachments := Some(AttachmentsOf(ts[i]) + [a]))
  {
    seq(|ts|, i requires 0 <= i < |ts| =>
      if ts[i].id == taskId then ts[i].(attachments := Some(AttachmentsOf(ts[i]) + [a])) else ts[i])
  }

  /** The test `a => a.id !== attachmentId`. */
  function OtherAttachment(id: int): Attachment -> bool {
    (a: Attachment) => a.id != id
  }

  /** After an attachment delete: `t.attachments?.filter(a => a.id !== attachmentId)`
      on the matching task, so an absent list stays absent. */
  function DropAttachment(ts: seq<Task>, taskId: int, attachmentId: int): (r: seq<Task>)
    ensures |r| == |ts|
    ensures forall i :: 0 <= i < |ts| && ts[i].id != taskId ==> r[i] == ts[i]
    ensures forall i :: 0 <= i < |ts| && ts[i].id == taskId ==>
              r[i].attachments.None? == ts[i].attachments.None? &&
              r[i] == ts[i].(attachments := r[i].attachments) &&
              (forall a :: a in AttachmentsOf(r[i]) <==> a in AttachmentsOf(ts[i]) && a.id != attachmentId)
    ensures forall i :: 0 <= i < |ts| && ts[i].id == taskId && ts[i].attachments.Some? ==>
              r[i].attachments == Some(Filter(ts[i].attachments.value, OtherAttachment(attachmentId)))
  {
    seq(|ts|, i requires 0 <= i < |ts| =>
      if ts[i].id == taskId && ts[i].attachments.Some?
      then ts[i].(attachments := Some(Filter(ts[i].attachments.value, OtherAttachment(attachmentId))))
      else ts[i])
  }

  /** Deleting the attachment just uploaded gives the task its list back (an
      absent list coming back as empty), provided no earlier attachment of the
      task shares the new one's id. */
  lemma DropUndoesAdd(ts: seq<Task>, taskId: int, a: Attachment)
    requires forall i, b :: 0 <= i < |ts| && ts[i].id == taskId && b in AttachmentsOf(ts[i]) ==> b.id != a.id
    ensures var r := DropAttachment(AddAttachment(ts, taskId, a), taskId, a.id);
            |r| == |ts| &&
            forall i :: 0 <= i < |ts| ==>
              r[i] == if ts[i].id == taskId then ts[i].(attachments := Some(AttachmentsOf(ts[i]))) else ts[i]
  {
    var added := AddAttachment(ts, taskId, a);
    forall i | 0 <= i < |ts| && ts[i].id == taskId
      ensures Filter(AttachmentsOf(ts[i]) + [a], OtherAttachment(a.id)) == AttachmentsOf(ts[i])
    {
      var before := AttachmentsOf(ts[i]);
      FilterConcat(before, [a], OtherAttachment(a.id));
      forall j | 0 <= j < |before| ensures OtherAttachment(a.id)(before[j]) {
        assert before[j] in before;
      }
      FilterAll(before, OtherAttachment(a.id));
      FilterNone([a], OtherAttachment(a.id));
    }
  }

  // ---------------------------------------------------------------------------
  // The store
  // ---------------------------------------------------------------------------

  class TaskState {
    var tasks: seq<Task>
    var isLoading: bool

    constructor ()
      ensures tasks == [] && !isLoading
    {
      tasks := [];
      isLoading := false;
    }

    /** fetchTasks: the response replaces the list; a failed request keeps it;
        either way loading ends. */
    method FetchTasks(response: Option<seq<Task>>)
      modifies this
      ensures !isLoading
      ensures tasks == if response.Some? then response.value else old(tasks)
    {
      isLoading := true;
      if response.Some? {
        tasks := response.value;
      }
      isLoading := false;
    }

    /** createTask: the server's task is appended; on failure nothing changes. */
    method CreateTask(response: Option<Task>)
      modifies this
      ensures isLoading == old(isLoading)
      ensures tasks == if response.Some? then old(tasks) + [response.value] else old(tasks)
    {
      if response.Some? {
        tasks := tasks + [response.value];
      }
    }

    /** updateTask: the patch is merged optimistically into the tasks with that
        id; when the request fails the whole list is fetched again, without the
        project filter (`refetch` is that fetch's response). */
    method UpdateTask(id: int, patch: TaskPatch, requestOk: bool, refetch: Option<seq<Task>>)
      modifies this
      ensures requestOk ==> tasks == UpdateById(old(tasks), id, patch) && isLoading == old(isLoading)
      ensures !requestOk ==> (!isLoading &&
                tasks == if refetch.Some? then refetch.value else UpdateById(old(tasks), id, patch))
    {
      tasks := UpdateById(tasks, id, patch);
      if !requestOk {
        FetchTasks(refetch);
      }
    }

    /** deleteTask: the tasks with that id are removed optimistically; a failed
        request fetches the whole list again. */
    method DeleteTask(id: int, requestOk: bool, refetch: Option<seq<Task>>)
      modifies this
      ensures requestOk ==> tasks == RemoveById(old(tasks), id) && isLoading == old(isLoading)
      ensures !requestOk ==> (!isLoading &&
                tasks == if refetch.Some? then refetch.value else RemoveById(old(tasks), id))
    {
      tasks := RemoveById(tasks, id);
      if !requestOk {
        FetchTasks(refetch);
      }
    }

    /** setTasks: the list is replaced wholesale. */
    method SetTasks(ts: seq<Task>)
      modifies this
      ensures tasks == ts && isLoading == old(isLoading)
    {
      tasks := ts;
    }

    /** uploadAttachment: after a successful request the attachment is appended
        to that task's list; a failed request is rethrown (`ok` false) with the
        state unchanged. */
    method UploadAttachment(taskId: int, response: Option<Attachment>) returns (ok: bool)
      modifies this
      ensures ok <==> response.Some?
      ensures isLoading == old(isLoading)
      ensures tasks == if ok then AddAttachment(old(tasks), taskId, response.value) else old(tasks)
    {
      if response.None? {
        return false;
      }
      tasks := AddAttachment(tasks, taskId, response.value);
      ok := true;
    }

    /** deleteAttachment: after a successful request the attachment is dropped
        from that task's list; a failed request is rethrown with the state unchanged. */
    method DeleteAttachment(taskId: int, attachmentId: int, requestOk: bool) returns (ok: bool)
      modifies this
      ensures ok == requestOk
      ensures isLoading == old(isLoading)
      ensures tasks == if ok then DropAttachment(old(tasks), taskId, attachmentId) else old(tasks)
    {
      if !requestOk {
        return false;
      }
      tasks := DropAttachment(tasks, taskId, attachmentId);
      ok := true;
    }
  }
}
