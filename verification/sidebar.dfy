/** The sidebar's pure logic (Sidebar): the initials shown in the avatar
    fallback, the guards in front of the project create, rename and delete
    requests, and the address the avatar image is loaded from. */
module Sidebar {
  import opened Common
  import opened Text
  import opened Uploads
  import ProjectStore

  // ---------------------------------------------------------------------------
  // getInitials
  // ---------------------------------------------------------------------------

  /** `n[0]` joined into a string: the first character of a word, and nothing
      for an empty word (whose `n[0]` is `undefined`, which `join` prints as ""). */
  function First(w: string): (r: string)
    ensures |r| <= 1
    ensures w == "" <==> r == ""
    ensures r != "" ==> r[0] == w[0]
  {
    if w == "" then "" else [w[0]]
  }

  /** `.map(n => n[0])`. */
  function Firsts(ws: seq<string>): (r: seq<string>)
    ensures |r| == |ws|
    ensures forall i :: 0 <= i < |ws| ==> r[i] == First(ws[i])
  {
    if |ws| == 0 then [] else [First(ws[0])] + Firsts(ws[1..])
  }

  /** `.join("")`. */
  function Concat(xs: seq<string>): string {
    if |xs| == 0 then "" else xs[0] + Concat(xs[1..])
  }

  /** `toUpperCase` on one character, for the ASCII letters. */
  function UpperAscii(c: char): (u: char)
    ensures 'a' <= c <= 'z' ==> u as int == c as int - 32
    ensures !('a' <= c <= 'z') ==> u == c
  {
    if 'a' <= c <= 'z' then (c as int - 32) as char else c
  }

  /** `.toUpperCase()`, character by character. */
  function Upper(s: string): (r: string)
    ensures |r| == |s|
    ensures forall i :: 0 <= i < |s| ==> r[i] == UpperAscii(s[i])
  {
    seq(|s|, i requires 0 <= i < |s| => UpperAscii(s[i]))
  }

  /** `.slice(0, n)`. */
  function Take(s: string, n: nat): (r: string)
    ensures |r| <= n && |r| <= |s|
    ensures r == s[..|r|]
    ensures |s| >= n ==> |r| == n
  {
    if |s| <= n then s else s[..n]
  }

  /** The reference reading of the initials: the characters of `s` that are not
      spaces and that open a word, i.e. stand first or right after a space
      (`atStart` says whether the previous character was a space or the start). */
  function WordStarts(s: string, atStart: bool): (r: string)
    ensures |r| <= |s|
    ensures forall i :: 0 <= i < |r| ==> r[i] != ' ' && r[i] in s
  {
    if |s| == 0 then ""
    else (if atStart && s[0] != ' ' then [s[0]] else "") + WordStarts(s[1..], s[0] == ' ')
  }

  /** `getInitials`: split at spaces, first character of each word, joined,
      upper-cased, at most two characters. */
  function GetInitials(name: string): (r: string)
    ensures |r| <= 2
    ensures r == Take(Upper(WordStarts(name, true)), 2)
  {
    InitialsAreWordStarts(name);
    Take(Upper(Concat(Firsts(Split(name, ' ')))), 2)
  }

  /** The pipeline `split(" ").map(n => n[0]).join("")` keeps exactly the
      characters that open a word: empty words from repeated, leading or
      trailing spaces contribute nothing. The second half is about the words
      after the first space. */
  lemma {:induction false} InitialsAreWordStarts(s: string)
    ensures Concat(Firsts(Split(s, ' '))) == WordStarts(s, true)
    ensures Concat(Firsts(Split(s, ' ')[1..])) == WordStarts(s, false)
  {
    if |s| > 0 {
      InitialsAreWordStarts(s[1..]);
      var rest := Split(s[1..], ' ');
      if s[0] == ' ' {
        assert Split(s, ' ') == [""] + rest;
        ConcatFirstsCons("", rest);
        assert Split(s, ' ')[1..] == rest;
      } else {
        var w := [s[0]] + rest[0];
        assert Split(s, ' ') == [w] + rest[1..];
        ConcatFirstsCons(w, rest[1..]);
        assert Split(s, ' ')[1..] == rest[1..];
      }
    }
  }

  lemma ConcatFirstsCons(w: string, ws: seq<string>)
    ensures Concat(Firsts([w] + ws)) == First(w) + Concat(Firsts(ws))
  {
    assert ([w] + ws)[1..] == ws;
    assert Firsts([w] + ws) == [First(w)] + Firsts(ws);
    assert ([First(w)] + Firsts(ws))[1..] == Firsts(ws);
  }

  /** An empty name has no initials. */
  lemma InitialsOfEmpty()
    ensures GetInitials("") == ""
  {
  }

  /** The initials are upper-cased word openers, never a space. */
  lemma InitialsHaveNoSpace(name: string)
    ensures forall i :: 0 <= i < |GetInitials(name)| ==> GetInitials(name)[i] != ' '
  {
    var w := WordStarts(name, true);
    forall i | 0 <= i < |GetInitials(name)| ensures GetInitials(name)[i] != ' ' {
      assert GetInitials(name)[i] == UpperAscii(w[i]);
    }
  }

  // ---------------------------------------------------------------------------
  // The dialog handlers
  // ---------------------------------------------------------------------------

  /** handleCreate: the create request sent, if any. A blank name sends
      nothing; otherwise the name goes as typed, untrimmed. */
  function HandleCreate(name: string): (r: Option<string>)
    ensures r.None? <==> forall k :: 0 <= k < |name| ==> IsJsSpace(name[k])
    ensures r.Some? ==> r.value == name
  {
    BlankIffAllSpace(name);
    if IsBlank(name) then None else Some(name)
  }

  /** A rename request: the project id and the new name. */
  datatype EditRequest = EditRequest(projectId: int, name: string)

  /** handleEdit: nothing is sent when no project is being edited or the new
      name is blank; otherwise that project gets the name as typed. */
  function HandleEdit(projectToEdit: Option<int>, name: string): (r: Option<EditRequest>)
    ensures r.None? <==> projectToEdit.None? || forall k :: 0 <= k < |name| ==> IsJsSpace(name[k])
    ensures r.Some? ==> r.value == EditRequest(projectToEdit.value, name)
  {
    BlankIffAllSpace(name);
    if projectToEdit.None? || IsBlank(name) then None else Some(EditRequest(projectToEdit.value, name))
  }

  /** The delete confirmation dialog: whether it is open and the project it asks about. */
  datatype DeleteDialog = DeleteDialog(open: bool, target: Option<ProjectStore.Project>)

  /** handleDelete: without a chosen project nothing happens. Otherwise the
      store deletes that project's id (a failed request is swallowed by the
      store), and the dialog closes and forgets the project either way. */
  method HandleDelete(store: ProjectStore.ProjectState, dialog: DeleteDialog, requestOk: bool)
      returns (after: DeleteDialog)
    modifies store
    ensures dialog.target.None? ==>
              after == dialog && store.projects == old(store.projects)
              && store.selectedProjectId == old(store.selectedProjectId)
    ensures dialog.target.Some? ==> after == DeleteDialog(false, None)
    ensures dialog.target.Some? && requestOk ==>
              store.projects == ProjectStore.RemoveById(old(store.projects), dialog.target.value.id)
              && (forall p :: p in store.projects ==> p.id != dialog.target.value.id)
              && store.selectedProjectId == ProjectStore.Deselect(old(store.selectedProjectId), dialog.target.value.id)
    ensures dialog.target.Some? && !requestOk ==>
              store.projects == old(store.projects) && store.selectedProjectId == old(store.selectedProjectId)
    ensures store.isLoading == old(store.isLoading)
  {
    if dialog.target.None? {
      return dialog;
    }
    store.DeleteProject(dialog.target.value.id, requestOk);
    after := DeleteDialog(false, None);
  }

  // ---------------------------------------------------------------------------
  // avatarSrc
  // ---------------------------------------------------------------------------

  /** The storage origin the backend serves `/uploads` from. */
  const StorageUrl: string := "http://localhost:8081"

  /** `user?.avatarUrl ? storageUrl + user.avatarUrl : undefined`: no image for
      a missing or empty URL. */
  function AvatarSrc(avatarUrl: Option<string>): (r: Option<string>)
    ensures r.Some? <==> avatarUrl.Some? && avatarUrl.value != ""
    ensures r.Some? ==> StartsWith(r.value, StorageUrl) && r.value[|StorageUrl|..] == avatarUrl.value
  {
    if avatarUrl.Some? && avatarUrl.value != "" then
      var src := StorageUrl + avatarUrl.value;
      assert src[..|StorageUrl|] == StorageUrl;
      Some(src)
    else None
  }

  /** Different avatar URLs load from different addresses. */
  lemma AvatarSrcInjective(u1: Option<string>, u2: Option<string>)
    requires AvatarSrc(u1).Some? && AvatarSrc(u1) == AvatarSrc(u2)
    ensures u1 == u2
  {
  }

  /** An uploaded avatar is loaded from the storage origin followed by the
      path the backend returned for it. */
  lemma AvatarSrcOfUpload(uuid: string)
    ensures AvatarSrc(Some(AvatarUrl(uuid))) == Some("http://localhost:8081/uploads/avatars/avatar-" + uuid + ".webp")
  {
    var url := AvatarUrl(uuid);
    assert url == "/uploads/avatars/avatar-" + uuid + ".webp";
    assert url != "" by {
      assert |url| >= |"/uploads/avatars/"|;
    }
    assert StorageUrl + url == "http://localhost:8081/uploads/avatars/avatar-" + uuid + ".webp";
  }
}
