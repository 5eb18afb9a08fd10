/** The project record store (ProjectsService) and its coordination with the
    attachment storage: removing a project first deletes the folder
    `attachments/<userId>/<sanitised project name>` and then the record. */
module ProjectsService {
  import opened Common
  import opened Text
  import opened Sequences
  import opened Sanitizer
  import opened Uploads

  /** A row of the project table; `createdAt` is the creation timestamp. */
  datatype Project = Project(id: int, name: string, description: Option<string>, userId: int, createdAt: int)

  /** The body of an update request: either field may be omitted. */
  datatype UpdateProjectInput = UpdateProjectInput(name: Option<string>, description: Option<string>)

  /** The folder `remove` deletes: the one attachments of the project's tasks are
      saved under, `[userId.toString(), project.name]`. */
  function ProjectFolder(userId: int, name: string): Path {
    AttachmentFolder([IntToString(userId), name])
  }

  /** A project's folder is `attachments/<decimal user id>/<sanitised name>`
      (the name segment vanishes when the name is empty). */
  lemma ProjectFolderShape(userId: int, name: string)
    ensures ProjectFolder(userId, name) ==
            ["attachments", IntToString(userId)] + (if name == "" then [] else [SanitizeName(name)])
  {
    var id, seg := IntToString(userId), SanitizeName(name);
    var s := SanitizeAll([id, name]);
    SanitizeKeepsDigits(id);
    SanitizeEmptyIff(name);
    assert s == [id] + [seg];
    FilterConcat([id], [seg], IsNonEmpty);
    FilterSingle(id, IsNonEmpty);
    FilterSingle(seg, IsNonEmpty);
    var kept := Filter(s, IsNonEmpty);
    assert kept == [id] + (if name == "" then [] else [seg]);
    assert ProjectFolder(userId, name) == ["attachments"] + kept;
  }

  /** Two projects of one user whose names sanitise alike share a folder, so
      removing either one deletes every file stored for the other. */
  lemma NamesakesShareFolder(userId: int, name1: string, name2: string, files: map<Path, Bytes>, p: Path)
    requires SanitizeName(name1) == SanitizeName(name2)
    requires p in files && Under(ProjectFolder(userId, name2), p)
    ensures p !in WithoutFolder(files, ProjectFolder(userId, name1))
  {
    ProjectFolderShape(userId, name1);
    ProjectFolderShape(userId, name2);
  }

  /** Removing a project never touches the files of another user. */
  lemma OtherUsersUntouched(u1: int, u2: int, name1: string, name2: string, files: map<Path, Bytes>, p: Path)
    requires u1 != u2
    requires p in files && Under(ProjectFolder(u2, name2), p)
    ensures p in WithoutFolder(files, ProjectFolder(u1, name1))
  {
    var d1, d2 := ProjectFolder(u1, name1), ProjectFolder(u2, name2);
    ProjectFolderShape(u1, name1);
    ProjectFolderShape(u2, name2);
    assert d1[1] == IntToString(u1) && d2[1] == IntToString(u2);
    assert p[1] == d2[1] by {
      assert p[..|d2|][1] == p[1];
    }
    if IntToString(u1) == IntToString(u2) {
      IntToStringInjective(u1, u2);
    }
    SurvivesFolderDelete(files, d1, p, 1);
  }

  /** Renaming moves no file: after a rename to a name that sanitises
      differently, removing the project leaves the files saved under the old
      name in place. */
  lemma RenameOrphansFiles(userId: int, oldName: string, newName: string, files: map<Path, Bytes>, p: Path)
    requires oldName != "" && newName != "" && SanitizeName(oldName) != SanitizeName(newName)
    requires p in files && Under(ProjectFolder(userId, oldName), p)
    ensures p in WithoutFolder(files, ProjectFolder(userId, newName))
  {
    var dOld, dNew := ProjectFolder(userId, oldName), ProjectFolder(userId, newName);
    ProjectFolderShape(userId, oldName);
    ProjectFolderShape(userId, newName);
    SanitizeEmptyIff(oldName);
    SanitizeEmptyIff(newName);
    assert |dOld| == 3 && |dNew| == 3 && dNew[2] == SanitizeName(newName);
    assert p[2] == dOld[2] by {
      assert p[..|dOld|][2] == p[2];
    }
    SurvivesFolderDelete(files, dNew, p, 2);
  }

  /** `prisma.project.update({ data })` on one row. */
  function Apply(p: Project, u: UpdateProjectInput): (r: Project)
    ensures r.id == p.id && r.userId == p.userId && r.createdAt == p.createdAt
    ensures r.name == (if u.name.Some? then u.name.value else p.name)
    ensures r.description == (if u.description.Some? then u.description else p.description)
  {
    Project(p.id, u.name.GetOr(p.name), if u.description.Some? then u.description else p.description,
            p.userId, p.createdAt)
  }

  /** The first row with that id and owner: `findFirst({ where: { id, userId } })`. */
  function FindIndex(ps: seq<Project>, id: int, userId: int): (r: Option<nat>)
    ensures r.Some? ==> r.value < |ps| && ps[r.value].id == id && ps[r.value].userId == userId
    ensures r.None? <==> forall i :: 0 <= i < |ps| ==> ps[i].id != id || ps[i].userId != userId
  {
    if |ps| == 0 then None
    else if ps[0].id == id && ps[0].userId == userId then Some(0)
    else
      match FindIndex(ps[1..], id, userId)
      case None => None
      case Some(k) => Some(k + 1)
  }

  predicate UniqueIds(ps: seq<Project>) {
    forall i, j :: 0 <= i < j < |ps| ==> ps[i].id != ps[j].id
  }

  /** Cutting one row out keeps the ids unique and in range. */
  lemma DropKeepsIds(ps: seq<Project>, k: nat, nextId: int)
    requires k < |ps| && UniqueIds(ps)
    requires forall i :: 0 <= i < |ps| ==> 1 <= ps[i].id < nextId
    ensures var rest := ps[..k] + ps[k + 1..];
            UniqueIds(rest) && forall i :: 0 <= i < |rest| ==> 1 <= rest[i].id < nextId
  {
    var rest := ps[..k] + ps[k + 1..];
    forall i | 0 <= i < |rest| ensures rest[i] == ps[if i < k then i else i + 1] {
    }
  }

  /** Newest first: the sort key of `orderBy: { createdAt: 'desc' }`. */
  function NewestFirst(p: Project): int { -p.createdAt }

  class ProjectService {
    /** The project table, in insertion order. */
    var projects: seq<Project>
    /** The next value of the auto-increment id. */
    var nextId: int
    /** The attachment storage the service deletes folders from. */
    const uploads: UploadStore

    ghost predicate Valid()
      reads this, uploads
    {
      && nextId >= 1
      && (forall i :: 0 <= i < |projects| ==> 1 <= projects[i].id < nextId)
      && UniqueIds(projects)
      && uploads.Valid()
    }

    constructor (store: UploadStore)
      requires store.Valid()
      ensures Valid() && projects == [] && nextId == 1 && uploads == store
    {
      projects := [];
      nextId := 1;
      uploads := store;
    }

    /** create: the project is stored with the caller as owner. */
    method Create(userId: int, name: string, description: Option<string>, now: int) returns (p: Project)
      requires Valid()
      modifies this
      ensures Valid() && nextId == old(nextId) + 1
      ensures p == Project(old(nextId), name, description, userId, now)
      ensures projects == old(projects) + [p]
    {
      p := Project(nextId, name, description, userId, now);
      projects := projects + [p];
      nextId := nextId + 1;
    }

    /** findAll: exactly the caller's projects, newest first. */
    method FindAll(userId: int) returns (r: seq<Project>)
      ensures forall p :: p in r <==> p in projects && p.userId == userId
      ensures multiset(r) == multiset(Filter(projects, (p: Project) => p.userId == userId))
      ensures forall i, j :: 0 <= i < j < |r| ==> r[i].createdAt >= r[j].createdAt
    {
      var mine := Filter(projects, (p: Project) => p.userId == userId);
      r := SortBy(mine, NewestFirst);
      SortByMembers(mine, NewestFirst);
      forall i, j | 0 <= i < j < |r| ensures r[i].createdAt >= r[j].createdAt {
        assert NewestFirst(r[i]) <= NewestFirst(r[j]);
      }
    }

    /** findOne: the caller's project with that id, or NotFound. */
    method FindOne(id: int, userId: int) returns (r: Result<Project>)
      ensures r.Ok? <==> exists i :: 0 <= i < |projects| && projects[i].id == id && projects[i].userId == userId
      ensures r.Ok? ==> r.value in projects && r.value.id == id && r.value.userId == userId
      ensures r.Err? ==> r.error == NotFound
    {
      match FindIndex(projects, id, userId)
      case None => r := Err(NotFound);
      case Some(k) => r := Ok(projects[k]);
    }

    /** update: after the ownership check the supplied fields are written; no
        stored file moves, whatever the new name. NotFound changes nothing. */
    method Update(id: int, userId: int, u: UpdateProjectInput) returns (r: Result<Project>)
      requires Valid()
      modifies this
      ensures Valid() && nextId == old(nextId)
      ensures uploads.files == old(uploads.files) && uploads.dirs == old(uploads.dirs)
      ensures r.Err? <==> forall i :: 0 <= i < |old(projects)| ==> old(projects)[i].id != id || old(projects)[i].userId != userId
      ensures r.Err? ==> r.error == NotFound && projects == old(projects)
      ensures r.Ok? ==> exists i :: 0 <= i < |old(projects)| && old(projects)[i].id == id && old(projects)[i].userId == userId
                                   && r.value == Apply(old(projects)[i], u)
                                   && projects == old(projects)[i := r.value]
    {
      var found := FindOne(id, userId);
      if found.Err? {
        return Err(NotFound);
      }
      var k := FindIndex(projects, id, userId).value;
      r := Ok(Apply(projects[k], u));
      projects := projects[k := r.value];
    }

    /** remove: after the ownership check the project's folder is deleted (best
        effort: a failing `rmSync`, `fault`, is swallowed and leaves the files),
        then the record. NotFound changes neither the table nor the files. */
    method Remove(id: int, userId: int, fault: bool) returns (r: Result<Project>)
      requires Valid()
      modifies this, uploads
      ensures Valid() && nextId == old(nextId)
      ensures r.Err? <==> forall i :: 0 <= i < |old(projects)| ==> old(projects)[i].id != id || old(projects)[i].userId != userId
      ensures r.Err? ==> r.error == NotFound && projects == old(projects)
                         && uploads.files == old(uploads.files) && uploads.dirs == old(uploads.dirs)
      ensures r.Ok? ==> exists i :: 0 <= i < |old(projects)| && old(projects)[i] == r.value
                                   && r.value.id == id && r.value.userId == userId
                                   && projects == old(projects)[..i] + old(projects)[i + 1..]
      ensures r.Ok? ==> uploads.files == if fault then old(uploads.files)
                                         else WithoutFolder(old(uploads.files), ProjectFolder(userId, r.value.name))
      ensures r.Ok? ==> uploads.dirs == if fault then old(uploads.dirs)
                                        else set d | d in old(uploads.dirs) && !Under(ProjectFolder(userId, r.value.name), d)
    {
      var found := FindOne(id, userId);
      if found.Err? {
        return Err(NotFound);
      }
      var k := FindIndex(projects, id, userId).value;
      var project := projects[k];
      uploads.DeleteFolder([IntToString(userId), project.name], fault);
      DropKeepsIds(projects, k, nextId);
      projects := projects[..k] + projects[k + 1..];
      r := Ok(project);
    }
  }
}
