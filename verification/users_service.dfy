/** The user record store (UsersService) and the avatar upload flow of its
    controller: a new avatar is saved first, then the previous avatar file is
    deleted (best effort) and the user's `avatarUrl` overwritten. */
module UsersService {
  import opened Common
  import opened Uploads

  /** A row of the user table; `avatarUrl` is `None` until an avatar is uploaded. */
  datatype User = User(id: int, email: string, name: string, avatarUrl: Option<string>, password: string)

  /** `user && user.avatarUrl`: the avatar URL of the user with that id when
      there is such a user and the URL is set and not empty. */
  function PreviousAvatar(us: seq<User>, userId: int): (r: Option<string>)
    ensures r.Some? <==> exists i :: 0 <= i < |us| && us[i].id == userId && us[i].avatarUrl.Some?
                                    && us[i].avatarUrl.value != "" && (forall j :: 0 <= j < i ==> us[j].id != userId)
    ensures r.Some? ==> r.value != "" && exists i :: 0 <= i < |us| && us[i].id == userId && us[i].avatarUrl == r
  {
    match IndexOfId(us, userId)
    case None => None
    case Some(k) => if us[k].avatarUrl.Some? && us[k].avatarUrl.value != "" then us[k].avatarUrl else None
  }

  /** The first row with that id. */
  function IndexOfId(us: seq<User>, id: int): (r: Option<nat>)
    ensures r.Some? ==> r.value < |us| && us[r.value].id == id && forall j :: 0 <= j < r.value ==> us[j].id != id
    ensures r.None? <==> forall i :: 0 <= i < |us| ==> us[i].id != id
  {
    if |us| == 0 then None
    else if us[0].id == id then Some(0)
    else
      match IndexOfId(us[1..], id)
      case None => None
      case Some(k) => Some(k + 1)
  }

  /** The first row with that email. */
  function IndexOfEmail(us: seq<User>, email: string): (r: Option<nat>)
    ensures r.Some? ==> r.value < |us| && us[r.value].email == email
    ensures r.None? <==> forall i :: 0 <= i < |us| ==> us[i].email != email
  {
    if |us| == 0 then None
    else if us[0].email == email then Some(0)
    else
      match IndexOfEmail(us[1..], email)
      case None => None
      case Some(k) => Some(k + 1)
  }

  class UserService {
    /** The user table. */
    var users: seq<User>
    /** The attachment storage avatars are saved to and deleted from. */
    const uploads: UploadStore

    /** Ids and emails are unique, as the table's keys demand. */
    ghost predicate Valid()
      reads this, uploads
    {
      && (forall i, j :: 0 <= i < j < |users| ==> users[i].id != users[j].id)
      && (forall i, j :: 0 <= i < j < |users| ==> users[i].email != users[j].email)
      && uploads.Valid()
    }

    constructor (initial: seq<User>, store: UploadStore)
      requires forall i, j :: 0 <= i < j < |initial| ==> initial[i].id != initial[j].id
      requires forall i, j :: 0 <= i < j < |initial| ==> initial[i].email != initial[j].email
      requires store.Valid()
      ensures Valid() && users == initial && uploads == store
    {
      users := initial;
      uploads := store;
    }

    /** findOne: the user with that email, `null` when there is none. */
    method FindOne(email: string) returns (r: Option<User>)
      ensures r.None? <==> forall i :: 0 <= i < |users| ==> users[i].email != email
      ensures r.Some? ==> r.value in users && r.value.email == email
    {
      match IndexOfEmail(users, email)
      case None => r := None;
      case Some(k) => r := Some(users[k]);
    }

    /** updateAvatar: the previous avatar file is deleted exactly when the user
        exists and has a non-empty `avatarUrl` (a failing delete, `fault`, is
        swallowed), then the URL is overwritten and nothing else about the user
        changes. A missing user gives NotFound after the lookup, with nothing changed. */
    method UpdateAvatar(userId: int, avatarUrl: string, fault: bool) returns (r: Result<User>)
      requires Valid()
      modifies this, uploads
      ensures Valid() && uploads.dirs == old(uploads.dirs)
      ensures uploads.files == if PreviousAvatar(old(users), userId).Some? && !fault
                               then Unlinked(old(uploads.files), PreviousAvatar(old(users), userId).value)
                               else old(uploads.files)
      ensures r.Err? <==> forall i :: 0 <= i < |old(users)| ==> old(users)[i].id != userId
      ensures r.Err? ==> r.error == NotFound && users == old(users)
      ensures r.Ok? ==> r.value in users
      ensures r.Ok? ==> exists i :: 0 <= i < |old(users)| && old(users)[i].id == userId
                                   && r.value == old(users)[i].(avatarUrl := Some(avatarUrl))
                                   && users == old(users)[i := r.value]
    {
      var previous := PreviousAvatar(users, userId);
      if previous.Some? {
        uploads.DeleteFile(previous.value, fault);
      }
      match IndexOfId(users, userId)
      case None =>
        r := Err(NotFound);
      case Some(k) =>
        r := Ok(users[k].(avatarUrl := Some(avatarUrl)));
        users := users[k := r.value];
        assert users[k] == r.value;
    }

    /** updateProfile: only the user's name changes; a missing user gives NotFound. */
    method UpdateProfile(userId: int, name: string) returns (r: Result<User>)
      requires Valid()
      modifies this
      ensures Valid()
      ensures r.Err? <==> forall i :: 0 <= i < |old(users)| ==> old(users)[i].id != userId
      ensures r.Err? ==> r.error == NotFound && users == old(users)
      ensures r.Ok? ==> exists i :: 0 <= i < |old(users)| && old(users)[i].id == userId
                                   && r.value == old(users)[i].(name := name)
                                   && users == old(users)[i := r.value]
    {
      match IndexOfId(users, userId)
      case None =>
        r := Err(NotFound);
      case Some(k) =>
        r := Ok(users[k].(name := name));
        users := users[k := r.value];
    }

    /** The avatar upload request: the new avatar is saved before the old one
        is deleted, so the new file survives unless the old URL names that very
        path. An image the encoder rejects fails before anything changes; a
        missing user fails after the new file has been written, which stays. */
    method UploadAvatar(userId: int, image: Option<Bytes>, uuid: string, fault: bool) returns (r: Result<User>)
      requires Valid()
      requires IsUuid(uuid) && AvatarPath(uuid) !in uploads.files && AvatarPath(uuid) !in uploads.dirs
      modifies this, uploads
      ensures Valid()
      ensures image.None? ==> r == Err(StorageFailure) && users == old(users) && uploads.files == old(uploads.files)
      ensures image.Some? ==> (uploads.files ==
                if PreviousAvatar(old(users), userId).Some? && !fault
                then Unlinked(old(uploads.files)[AvatarPath(uuid) := image.value], PreviousAvatar(old(users), userId).value)
                else old(uploads.files)[AvatarPath(uuid) := image.value])
      ensures image.Some? && (PreviousAvatar(old(users), userId).None? || fault ||
                              UrlToPath(PreviousAvatar(old(users), userId).value) != Some(AvatarPath(uuid)))
              ==> AvatarPath(uuid) in uploads.files && uploads.files[AvatarPath(uuid)] == image.value
      ensures uploads.dirs == old(uploads.dirs)
      ensures r.Ok? ==> image.Some? && r.value.id == userId && r.value.avatarUrl == Some(AvatarUrl(uuid)) && r.value in users
      ensures r.Ok? ==> exists i :: 0 <= i < |old(users)| && old(users)[i].id == userId
                                   && r.value == old(users)[i].(avatarUrl := Some(AvatarUrl(uuid)))
                                   && users == old(users)[i := r.value]
      ensures r.Err? ==> users == old(users)
      ensures image.Some? ==> (r.Err? <==> forall i :: 0 <= i < |old(users)| ==> old(users)[i].id != userId)
      ensures image.Some? && r.Err? ==> r.error == NotFound
    {
      var saved := uploads.SaveAvatar(image, uuid);
      if saved.Err? {
        return Err(saved.error);
      }
      r := UpdateAvatar(userId, saved.value, fault);
    }
  }
}
