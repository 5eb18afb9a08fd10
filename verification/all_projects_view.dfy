/** The overview of all projects (AllProjectsView): the task list is grouped
    by project id in one pass, tasks without a project under the sentinel key
    -1, and each project's preview shows its group. */
module AllProjectsView {
  import opened Common
  import opened Sequences
  import opened TaskStore

  /** The key of the "no project" group. */
  const NoProject: int := -1

  /** `task.project?.id || -1`: the project's id, with a missing project and
      the falsy id 0 both sent to the sentinel. */
  function GroupKey(t: Task): (k: int)
    ensures t.project.Some? && t.project.value.id != 0 ==> k == t.project.value.id
    ensures t.project.None? || t.project.value.id == 0 ==> k == NoProject
  {
    if t.project.Some? && t.project.value.id != 0 then t.project.value.id else NoProject
  }

  /** The test a group applies: the task's key is `k`. */
  function HasKey(k: int): Task -> bool {
    (t: Task) => GroupKey(t) == k
  }

  /** The groups of `tasks`: a key for every task's key and no other, and under
      each key exactly the tasks with that key, in list order. */
  ghost predicate IsGrouping(groups: map<int, seq<Task>>, tasks: seq<Task>) {
    && (forall k :: k in groups <==> exists j :: 0 <= j < |tasks| && GroupKey(tasks[j]) == k)
    && (forall k :: k in groups ==> groups[k] == Filter(tasks, HasKey(k)))
  }

  /** One more task extends its own group at the end and no other. */
  lemma FilterStep(prefix: seq<Task>, x: Task, k: int)
    ensures Filter(prefix + [x], HasKey(k)) == Filter(prefix, HasKey(k)) + (if GroupKey(x) == k then [x] else [])
  {
    FilterConcat(prefix, [x], HasKey(k));
    FilterSingle(x, HasKey(k));
  }

  /** `tasks.reduce(...)`: for each task, create its group when missing, then
      push the task onto it. */
  method GroupByProject(tasks: seq<Task>) returns (groups: map<int, seq<Task>>)
    ensures IsGrouping(groups, tasks)
  {
    groups := map[];
    var i := 0;
    while i < |tasks|
      invariant 0 <= i <= |tasks|
      invariant forall k :: k in groups <==> exists j :: 0 <= j < i && GroupKey(tasks[j]) == k
      invariant forall k :: k in groups ==> groups[k] == Filter(tasks[..i], HasKey(k))
    {
      var t := tasks[i];
      var k := GroupKey(t);
      if k !in groups {
        FilterNone(tasks[..i], HasKey(k));
        groups := groups[k := []];
      }
      groups := groups[k := groups[k] + [t]];
      assert tasks[..i + 1] == tasks[..i] + [t];
      forall k' | k' in groups ensures groups[k'] == Filter(tasks[..i + 1], HasKey(k')) {
        FilterStep(tasks[..i], t, k');
      }
      i := i + 1;
    }
    assert tasks[..i] == tasks;
  }

  /** Every task lands in its own group, as often as it is in the list, and in
      no other group. */
  lemma TaskInExactlyOneGroup(groups: map<int, seq<Task>>, tasks: seq<Task>, t: Task)
    requires IsGrouping(groups, tasks) && t in tasks
    ensures GroupKey(t) in groups && multiset(groups[GroupKey(t)])[t] == multiset(tasks)[t]
    ensures forall k :: k in groups && k != GroupKey(t) ==> t !in groups[k]
  {
    var j :| 0 <= j < |tasks| && tasks[j] == t;
    assert GroupKey(tasks[j]) == GroupKey(t);
    FilterCount(tasks, HasKey(GroupKey(t)), t);
  }

  /** The sum of the sizes of the groups named in `keys`. */
  function GroupSizes(groups: map<int, seq<Task>>, keys: seq<int>): nat
    requires forall i :: 0 <= i < |keys| ==> keys[i] in groups
  {
    if |keys| == 0 then 0 else |groups[keys[0]]| + GroupSizes(groups, keys[1..])
  }

  /** The sum over `keys` of the number of tasks with each key. */
  function KeyCounts(tasks: seq<Task>, keys: seq<int>): nat {
    if |keys| == 0 then 0 else |Filter(tasks, HasKey(keys[0]))| + KeyCounts(tasks, keys[1..])
  }

  lemma {:induction false} GroupSizesAreKeyCounts(groups: map<int, seq<Task>>, tasks: seq<Task>, keys: seq<int>)
    requires IsGrouping(groups, tasks)
    requires forall i :: 0 <= i < |keys| ==> keys[i] in groups
    ensures GroupSizes(groups, keys) == KeyCounts(tasks, keys)
  {
    if |keys| > 0 {
      GroupSizesAreKeyCounts(groups, tasks, keys[1..]);
    }
  }

  /** Putting one task in front adds one to the count of its key, once for
      every time that key is listed. */
  lemma {:induction false} KeyCountsCons(x: Task, rest: seq<Task>, keys: seq<int>)
    ensures KeyCounts([x] + rest, keys) == multiset(keys)[GroupKey(x)] + KeyCounts(rest, keys)
  {
    if |keys| > 0 {
      var k0, tail := keys[0], keys[1..];
      KeyCountsCons(x, rest, tail);
      FilterConcat([x], rest, HasKey(k0));
      FilterSingle(x, HasKey(k0));
      assert |Filter([x] + rest, HasKey(k0))| == (if GroupKey(x) == k0 then 1 else 0) + |Filter(rest, HasKey(k0))|;
      assert multiset(keys) == multiset{k0} + multiset(tail) by {
        assert keys == [k0] + tail;
      }
    }
  }

  /** Counting the tasks of each key, over a listing of the keys that names
      every task's key exactly once, counts every task once. */
  lemma {:induction false} KeyCountsTotal(tasks: seq<Task>, keys: seq<int>)
    requires forall i, j :: 0 <= i < j < |keys| ==> keys[i] != keys[j]
    requires forall j :: 0 <= j < |tasks| ==> GroupKey(tasks[j]) in keys
    ensures KeyCounts(tasks, keys) == |tasks|
  {
    if |tasks| > 0 {
      KeyCountsTotal(tasks[1..], keys);
      KeyCountsCons(tasks[0], tasks[1..], keys);
      assert tasks == [tasks[0]] + tasks[1..];
      DistinctOnce(keys, GroupKey(tasks[0]));
    } else {
      KeyCountsEmpty(keys);
    }
  }

  lemma {:induction false} KeyCountsEmpty(keys: seq<int>)
    ensures KeyCounts([], keys) == 0
  {
    if |keys| > 0 {
      KeyCountsEmpty(keys[1..]);
    }
  }

  /** A value listed in a duplicate-free sequence is listed once. */
  lemma {:induction false} DistinctOnce(keys: seq<int>, k: int)
    requires forall i, j :: 0 <= i < j < |keys| ==> keys[i] != keys[j]
    requires k in keys
    ensures multiset(keys)[k] == 1
  {
    assert keys == [keys[0]] + keys[1..];
    if keys[0] == k {
      assert k !in keys[1..];
    } else {
      DistinctOnce(keys[1..], k);
    }
  }

  /** The group sizes sum to the number of tasks, over any duplicate-free
      listing of the groups' keys. */
  lemma GroupSizesSum(groups: map<int, seq<Task>>, tasks: seq<Task>, keys: seq<int>)
    requires IsGrouping(groups, tasks)
    requires forall i, j :: 0 <= i < j < |keys| ==> keys[i] != keys[j]
    requires forall i :: 0 <= i < |keys| ==> keys[i] in groups
    requires forall k :: k in groups ==> k in keys
    ensures GroupSizes(groups, keys) == |tasks|
  {
    GroupSizesAreKeyCounts(groups, tasks, keys);
    KeyCountsTotal(tasks, keys);
  }

  /** `tasksByProject[project.id] || []`: a project's preview list. */
  function ProjectTasks(groups: map<int, seq<Task>>, projectId: int): seq<Task> {
    if projectId in groups then groups[projectId] else []
  }

  /** A project's preview shows exactly its tasks in list order, and nothing
      when it has none. */
  lemma ProjectTasksFiltered(groups: map<int, seq<Task>>, tasks: seq<Task>, projectId: int)
    requires IsGrouping(groups, tasks)
    ensures ProjectTasks(groups, projectId) == Filter(tasks, HasKey(projectId))
    ensures (forall j :: 0 <= j < |tasks| ==> GroupKey(tasks[j]) != projectId) ==> ProjectTasks(groups, projectId) == []
  {
    if projectId !in groups {
      FilterNone(tasks, HasKey(projectId));
    }
  }

  /** `tasksByProject[-1] && tasksByProject[-1].length > 0`. */
  predicate ShowNoProject(groups: map<int, seq<Task>>) {
    NoProject in groups && |groups[NoProject]| > 0
  }

  /** The "no project" preview is shown exactly when some task has no
      project, or the project id 0. */
  lemma ShowNoProjectIff(groups: map<int, seq<Task>>, tasks: seq<Task>)
    requires IsGrouping(groups, tasks)
    requires forall j :: 0 <= j < |tasks| ==> tasks[j].project.Some? ==> tasks[j].project.value.id != NoProject
    ensures ShowNoProject(groups) <==>
            exists j :: 0 <= j < |tasks| && (tasks[j].project.None? || tasks[j].project.value.id == 0)
  {
    if exists j :: 0 <= j < |tasks| && (tasks[j].project.None? || tasks[j].project.value.id == 0) {
      var j :| 0 <= j < |tasks| && (tasks[j].project.None? || tasks[j].project.value.id == 0);
      assert GroupKey(tasks[j]) == NoProject;
      assert tasks[j] in groups[NoProject];
    }
  }
}
