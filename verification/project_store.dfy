/** The client project store (`useProjectStore`): the `projects` list, the
    selected project and the `isLoading` flag. A request's response is a
    parameter, `None` when the request threw; every failure is logged and
    swallowed. */
module ProjectStore {
  import opened Common
  import opened Sequences

  /** A project as the client sees it; the timestamps are ISO strings. */
  datatype Project = Project(id: int, name: string, description: Option<string>, createdAt: string, updatedAt: string)

  /** `projects.map(p => p.id === id ? response : p)`. */
  function ReplaceById(ps: seq<Project>, id: int, q: Project): (r: seq<Project>)
    ensures |r| == |ps|
    ensures forall i :: 0 <= i < |ps| ==> r[i] == if ps[i].id == id then q else ps[i]
  {
    seq(|ps|, i requires 0 <= i < |ps| => if ps[i].id == id then q else ps[i])
  }

  /** Replacing with the same response twice is replacing once, when the
      response keeps the id it was requested under. */
  lemma ReplaceByIdIdempotent(ps: seq<Project>, id: int, q: Project)
    requires q.id == id
    ensures ReplaceById(ReplaceById(ps, id, q), id, q) == ReplaceById(ps, id, q)
  {
  }

  /** When the response keeps its id, the set of ids in the list does not change. */
  lemma ReplaceByIdKeepsIds(ps: seq<Project>, id: int, q: Project)
    requires q.id == id
    ensures forall i :: 0 <= i < |ps| ==> ReplaceById(ps, id, q)[i].id == ps[i].id
  {
  }

  /** The test `p => p.id !== id`. */
  function OtherId(id: int): Project -> bool {
    (p: Project) => p.id != id
  }

  /** `projects.filter(p => p.id !== id)`: exactly the projects with another
      id, each as often as it was listed. */
  function RemoveById(ps: seq<Project>, id: int): (r: seq<Project>)
    ensures forall p :: p in r <==> p in ps && p.id != id
    ensures forall p: Project :: p.id != id ==> multiset(r)[p] == multiset(ps)[p]
  {
    var r := Filter(ps, OtherId(id));
    forall p: Project | p.id != id ensures multiset(r)[p] == multiset(ps)[p] {
      FilterCount(ps, OtherId(id), p);
    }
    r
  }

  /** Removing from a concatenation removes from each part, so the remaining
      projects keep their relative order. */
  lemma RemoveByIdConcat(a: seq<Project>, b: seq<Project>, id: int)
    ensures RemoveById(a + b, id) == RemoveById(a, id) + RemoveById(b, id)
  {
    FilterConcat(a, b, OtherId(id));
  }

  /** Removing a project the list does not hold changes nothing. */
  lemma RemoveByIdAbsent(ps: seq<Project>, id: int)
    requires forall i :: 0 <= i < |ps| ==> ps[i].id != id
    ensures RemoveById(ps, id) == ps
  {
    FilterAll(ps, OtherId(id));
  }

  /** `selectedProjectId === id ? null : selectedProjectId`. */
  function Deselect(selected: Option<int>, id: int): (r: Option<int>)
    ensures r.None? <==> selected.None? || selected.value == id
    ensures r.Some? ==> r == selected
  {
    if selected == Some(id) then None else selected
  }

  class ProjectState {
    var projects: seq<Project>
    var selectedProjectId: Option<int>
    var isLoading: bool

    constructor ()
      ensures projects == [] && selectedProjectId.None? && !isLoading
    {
      projects := [];
      selectedProjectId := None;
      isLoading := false;
    }

    /** fetchProjects: the response replaces the list; a failure keeps it;
        either way loading ends. The selection is untouched. */
    method FetchProjects(response: Option<seq<Project>>)
      modifies this
      ensures !isLoading && selectedProjectId == old(selectedProjectId)
      ensures projects == if response.Some? then response.value else old(projects)
    {
      isLoading := true;
      if response.Some? {
        projects := response.value;
      }
      isLoading := false;
    }

    /** createProject: the server's project goes first; on failure nothing changes. */
    method CreateProject(response: Option<Project>)
      modifies this
      ensures selectedProjectId == old(selectedProjectId) && isLoading == old(isLoading)
      ensures projects == if response.Some? then [response.value] + old(projects) else old(projects)
    {
      if response.Some? {
        projects := [response.value] + projects;
      }
    }

    /** updateProject: the entries with that id become the server's response;
        on failure nothing changes. */
    method UpdateProject(id: int, response: Option<Project>)
      modifies this
      ensures selectedProjectId == old(selectedProjectId) && isLoading == old(isLoading)
      ensures projects == if response.Some? then ReplaceById(old(projects), id, response.value) else old(projects)
    {
      if response.Some? {
        projects := ReplaceById(projects, id, response.value);
      }
    }

    /** selectProject: only the selection changes. */
    method SelectProject(id: Option<int>)
      modifies this
      ensures selectedProjectId == id
      ensures projects == old(projects) && isLoading == old(isLoading)
    {
      selectedProjectId := id;
    }

    /** deleteProject: after a successful request the project leaves the list,
        and the selection is cleared exactly when it was that project; on
        failure nothing changes. */
    method DeleteProject(id: int, requestOk: bool)
      modifies this
      ensures isLoading == old(isLoading)
      ensures projects == if requestOk then RemoveById(old(projects), id) else old(projects)
      ensures selectedProjectId == if requestOk then Deselect(old(selectedProjectId), id) else old(selectedProjectId)
    {
      if requestOk {
        projects := RemoveById(projects, id);
        selectedProjectId := Deselect(selectedProjectId, id);
      }
    }
  }
}
