/** The attachment storage manager (UploadsService): it derives folders and
    public URLs from `[userId, projectName, taskTitle]`, writes uploaded bytes
    verbatim, and deletes single files and whole folders on a best-effort
    basis. The uploads directory is a map from paths (lists of segments below
    that directory) to file contents, plus the set of directories. */
module Uploads {
  import opened Common
  import opened Text
  import opened Sequences
  import opened Sanitizer

  /** A location below the uploads directory, one directory or file name per segment. */
  type Path = seq<string>

  /** How an attachment is shown: the `type` field of the saved attachment. */
  datatype Kind = IMAGE | FILE

  /** What `saveAttachment` returns. */
  datatype SavedAttachment = SavedAttachment(url: string, kind: Kind, filename: string)

  // ---------------------------------------------------------------------------
  // Names, folders and URLs
  // ---------------------------------------------------------------------------

  /** A canonical `uuidv4()` string: 36 characters of lower-case hex digits and dashes. */
  predicate IsUuid(u: string) {
    |u| == 36 && forall i :: 0 <= i < |u| ==> ('0' <= u[i] <= '9' || 'a' <= u[i] <= 'f' || u[i] == '-')
  }

  predicate IsNonEmpty(seg: string) { seg != "" }

  /** Neither `"."` nor `".."`: a segment `path.join` keeps as a name. */
  predicate IsPlain(seg: string) { seg != "." && seg != ".." }

  /** `pathSegments.map(s => this.sanitizeName(s))`. */
  function SanitizeAll(segments: seq<string>): (r: seq<string>)
    ensures |r| == |segments|
    ensures forall i :: 0 <= i < |r| ==> r[i] == SanitizeName(segments[i])
  {
    seq(|segments|, i requires 0 <= i < |segments| => SanitizeName(segments[i]))
  }

  /** `path.join('attachments', ...sanitizedSegments)`; `path.join` drops empty segments.
      The folder always lies under `attachments` and every segment of it is a plain name. */
  function AttachmentFolder(segments: seq<string>): (r: Path)
    ensures |r| >= 1 && r[0] == "attachments"
    ensures forall i :: 1 <= i < |r| ==> r[i] != "" && IsPlain(r[i]) && '/' !in r[i]
  {
    var s := SanitizeAll(segments);
    var kept := Filter(s, IsNonEmpty);
    forall i | 0 <= i < |kept| ensures kept[i] != "" && IsPlain(kept[i]) && '/' !in kept[i] {
      var j :| 0 <= j < |s| && s[j] == kept[i];
      SanitizedIsPlainSegment(segments[j]);
    }
    ["attachments"] + kept
  }

  /** `${uuidv4()}-${file.originalname}`. */
  function AttachmentFileName(uuid: string, originalname: string): string {
    uuid + "-" + originalname
  }

  /** Where `saveAttachment` writes. */
  function AttachmentPath(segments: seq<string>, uuid: string, originalname: string): Path {
    AttachmentFolder(segments) + [AttachmentFileName(uuid, originalname)]
  }

  /** `/` followed by `['uploads', 'attachments', ...sanitizedSegments, filename].join('/')`. */
  function AttachmentUrl(segments: seq<string>, uuid: string, originalname: string): string {
    "/" + Join(["uploads", "attachments"] + SanitizeAll(segments) + [AttachmentFileName(uuid, originalname)], '/')
  }

  /** `avatar-${uuidv4()}.webp`. */
  function AvatarFileName(uuid: string): string {
    "avatar-" + uuid + ".webp"
  }

  /** Where `saveAvatar` writes. */
  function AvatarPath(uuid: string): Path {
    ["avatars", AvatarFileName(uuid)]
  }

  /** The URL `saveAvatar` returns. */
  function AvatarUrl(uuid: string): string {
    "/uploads/avatars/" + AvatarFileName(uuid)
  }

  /** `file.mimetype.startsWith('image/') ? 'IMAGE' : 'FILE'`. */
  function Classify(mimetype: string): (k: Kind)
    ensures k == IMAGE <==> StartsWith(mimetype, "image/")
  {
    if StartsWith(mimetype, "image/") then IMAGE else FILE
  }

  /** `fileUrl.replace(/^\/uploads\//, '')`. */
  function StripUploadsPrefix(url: string): string {
    if StartsWith(url, "/uploads/") then url[9..] else url
  }

  /** `path.join` of the segments onto the directory `acc`: empty and `"."`
      segments vanish and `".."` climbs one level. `None` when the path climbs
      above the uploads directory, where the store holds nothing. */
  function JoinPath(acc: Path, segs: seq<string>): Option<Path>
    decreases |segs|
  {
    if |segs| == 0 then Some(acc)
    else if segs[0] == "" || segs[0] == "." then JoinPath(acc, segs[1..])
    else if segs[0] == ".." then (if |acc| == 0 then None else JoinPath(acc[..|acc| - 1], segs[1..]))
    else JoinPath(acc + [segs[0]], segs[1..])
  }

  /** The file `deleteFile(url)` aims at: `path.join(uploadsDir, relativePath)`. */
  function UrlToPath(url: string): Option<Path> {
    JoinPath([], Split(StripUploadsPrefix(url), '/'))
  }

  /** Without `"."` and `".."`, joining only drops the empty segments. */
  lemma {:induction false} JoinPathPlain(acc: Path, segs: seq<string>)
    requires forall i :: 0 <= i < |segs| ==> IsPlain(segs[i])
    ensures JoinPath(acc, segs) == Some(acc + Filter(segs, IsNonEmpty))
    decreases |segs|
  {
    if |segs| == 0 {
      assert acc + Filter(segs, IsNonEmpty) == acc;
    } else if segs[0] == "" {
      JoinPathPlain(acc, segs[1..]);
      JoinPathSkips(acc, segs);
    } else {
      assert IsPlain(segs[0]);
      JoinPathPlain(acc + [segs[0]], segs[1..]);
      JoinPathKeeps(acc, segs);
    }
  }

  /** One step of `JoinPathPlain`: an empty first segment is dropped. */
  lemma JoinPathSkips(acc: Path, segs: seq<string>)
    requires |segs| > 0 && segs[0] == ""
    requires JoinPath(acc, segs[1..]) == Some(acc + Filter(segs[1..], IsNonEmpty))
    ensures JoinPath(acc, segs) == Some(acc + Filter(segs, IsNonEmpty))
  {
    FilterHead(segs, IsNonEmpty);
    assert [] + Filter(segs[1..], IsNonEmpty) == Filter(segs[1..], IsNonEmpty);
  }

  /** One step of `JoinPathPlain`: a plain, non-empty first segment is appended. */
  lemma JoinPathKeeps(acc: Path, segs: seq<string>)
    requires |segs| > 0 && segs[0] != "" && IsPlain(segs[0])
    requires JoinPath(acc + [segs[0]], segs[1..]) == Some(acc + [segs[0]] + Filter(segs[1..], IsNonEmpty))
    ensures JoinPath(acc, segs) == Some(acc + Filter(segs, IsNonEmpty))
  {
    var x, rest := segs[0], Filter(segs[1..], IsNonEmpty);
    assert JoinPath(acc, segs) == JoinPath(acc + [x], segs[1..]);
    FilterHead(segs, IsNonEmpty);
    assert IsNonEmpty(x);
    AppendAssoc(acc, [x], rest);
  }

  /** `replace(/^\/uploads\//, '')` takes off exactly the public prefix. */
  lemma StripPrefixed(rel: string)
    ensures StripUploadsPrefix("/uploads/" + rel) == rel
  {
    assert ("/uploads/" + rel)[..9] == "/uploads/";
    assert ("/uploads/" + rel)[9..] == rel;
  }

  /** A path written with '/' between plain, separator-free names resolves to those names, empty ones dropped. */
  lemma {:induction false} PlainPathResolves(segs: seq<string>)
    requires |segs| >= 1
    requires forall i :: 0 <= i < |segs| ==> '/' !in segs[i] && IsPlain(segs[i])
    ensures JoinPath([], Split(Join(segs, '/'), '/')) == Some(Filter(segs, IsNonEmpty))
  {
    SplitJoin(segs, '/');
    JoinPathPlain([], segs);
    assert [] + Filter(segs, IsNonEmpty) == Filter(segs, IsNonEmpty);
  }

  /** String bookkeeping for the URL, kept apart from `Join` so the solver does not unfold it. */
  lemma UrlConcat(a: string, b: string, x: string, j: string, uuid: string, name: string)
    requires a == "uploads" + "/" + b && b == "attachments" + "/" + x
    requires x == j + "/" + (uuid + "-" + name)
    ensures "/" + a == "/uploads/attachments/" + j + "/" + uuid + "-" + name
  {
  }

  /** The URL of an attachment reads `/uploads/attachments/<sanitised segments joined by '/'>/<uuid>-<name>`. */
  lemma AttachmentUrlShape(segments: seq<string>, uuid: string, originalname: string)
    requires |segments| >= 1
    ensures AttachmentUrl(segments, uuid, originalname) ==
            "/uploads/attachments/" + Join(SanitizeAll(segments), '/') + "/" + uuid + "-" + originalname
  {
    var s := SanitizeAll(segments);
    var f := AttachmentFileName(uuid, originalname);
    var r := ["attachments"] + (s + [f]);
    JoinSnoc(s, f, '/');
    JoinCons("attachments", s + [f], '/');
    JoinCons("uploads", r, '/');
    assert ["uploads", "attachments"] + s + [f] == ["uploads"] + r;
    UrlConcat(Join(["uploads"] + r, '/'), Join(r, '/'), Join(s + [f], '/'), Join(s, '/'), uuid, originalname);
  }

  /** The attachment file name is a plain, separator-free name. */
  lemma AttachmentFileNamePlain(uuid: string, originalname: string)
    requires IsUuid(uuid) && '/' !in originalname
    ensures var f := AttachmentFileName(uuid, originalname); f != "" && IsPlain(f) && '/' !in f
  {
    var f := AttachmentFileName(uuid, originalname);
    assert f[36] == '-';
    assert forall i :: 0 <= i < 36 ==> f[i] == uuid[i];
    assert forall i :: 37 <= i < |f| ==> f[i] == originalname[i - 37];
    assert |f| > 2;
  }

  /** The attachment URL is the public prefix followed by the relative path. */
  lemma AttachmentUrlPrefixed(segments: seq<string>, uuid: string, originalname: string)
    ensures AttachmentUrl(segments, uuid, originalname) ==
            "/uploads/" + Join(["attachments"] + SanitizeAll(segments) + [AttachmentFileName(uuid, originalname)], '/')
  {
    var rel := ["attachments"] + SanitizeAll(segments) + [AttachmentFileName(uuid, originalname)];
    assert ["uploads", "attachments"] + SanitizeAll(segments) + [AttachmentFileName(uuid, originalname)] == ["uploads"] + rel;
    JoinCons("uploads", rel, '/');
    assert "/" + ("uploads" + "/" + Join(rel, '/')) == "/uploads/" + Join(rel, '/');
  }

  /** String bookkeeping for `StripUploadsSegment`. */
  lemma SlashBefore(x: string, j: string)
    requires x == "uploads" + "/" + j
    ensures "/" + x == "/uploads/" + j
  {
  }

  /** Stripping the public prefix off `"/" + ["uploads", ...rel].join("/")` leaves `rel.join("/")`. */
  lemma StripUploadsSegment(rel: seq<string>)
    requires |rel| >= 1
    ensures StripUploadsPrefix("/" + Join(["uploads"] + rel, '/')) == Join(rel, '/')
  {
    JoinCons("uploads", rel, '/');
    SlashBefore(Join(["uploads"] + rel, '/'), Join(rel, '/'));
    StripPrefixed(Join(rel, '/'));
  }

  /** The URL's segment list is `uploads` in front of the relative path. */
  lemma UrlSegments(s: seq<string>, f: string)
    ensures ["uploads", "attachments"] + s + [f] == ["uploads"] + (["attachments"] + s + [f])
  {
  }

  /** Dropping the empty names of the relative path touches only the folder segments. */
  lemma FilterRelative(s: seq<string>, f: string)
    requires f != ""
    ensures Filter(["attachments"] + s + [f], IsNonEmpty) == ["attachments"] + Filter(s, IsNonEmpty) + [f]
  {
    FilterConcat(["attachments"] + s, [f], IsNonEmpty);
    FilterConcat(["attachments"], s, IsNonEmpty);
    assert Filter([f], IsNonEmpty) == [f];
    assert Filter(["attachments"], IsNonEmpty) == ["attachments"];
  }

  /** A relative path of plain names behind the public prefix resolves to those names, empty ones dropped. */
  lemma PrefixedPathResolves(rel: seq<string>)
    requires |rel| >= 1
    requires forall i :: 0 <= i < |rel| ==> '/' !in rel[i] && IsPlain(rel[i])
    ensures JoinPath([], Split(StripUploadsPrefix("/" + Join(["uploads"] + rel, '/')), '/')) == Some(Filter(rel, IsNonEmpty))
  {
    StripUploadsSegment(rel);
    PlainPathResolves(rel);
  }

  /** The relative attachment path, written with '/', resolves to the folder and the file name. */
  lemma RelativePathResolves(s: seq<string>, f: string)
    requires forall i :: 0 <= i < |s| ==> '/' !in s[i] && IsPlain(s[i])
    requires f != "" && IsPlain(f) && '/' !in f
    ensures JoinPath([], Split(StripUploadsPrefix("/" + Join(["uploads", "attachments"] + s + [f], '/')), '/'))
            == Some(["attachments"] + Filter(s, IsNonEmpty) + [f])
  {
    var rel := ["attachments"] + s + [f];
    RelativeSegmentsPlain(s, f);
    PrefixedPathResolves(rel);
    UrlSegments(s, f);
    FilterRelative(s, f);
  }

  /** Every segment of the relative attachment path is a plain, separator-free name. */
  lemma RelativeSegmentsPlain(s: seq<string>, f: string)
    requires forall i :: 0 <= i < |s| ==> '/' !in s[i] && IsPlain(s[i])
    requires IsPlain(f) && '/' !in f
    ensures var rel := ["attachments"] + s + [f];
            forall i :: 0 <= i < |rel| ==> '/' !in rel[i] && IsPlain(rel[i])
  {
    var rel := ["attachments"] + s + [f];
    forall i | 0 <= i < |rel| ensures '/' !in rel[i] && IsPlain(rel[i]) {
      if 0 < i < |rel| - 1 { assert rel[i] == s[i - 1]; }
    }
  }

  /** Round trip: the URL `saveAttachment` returns names, for `deleteFile`, exactly the file it wrote. */
  lemma AttachmentUrlResolves(segments: seq<string>, uuid: string, originalname: string)
    requires IsUuid(uuid) && '/' !in originalname
    ensures UrlToPath(AttachmentUrl(segments, uuid, originalname)) == Some(AttachmentPath(segments, uuid, originalname))
  {
    var s := SanitizeAll(segments);
    AttachmentFileNamePlain(uuid, originalname);
    forall i | 0 <= i < |s| ensures '/' !in s[i] && IsPlain(s[i]) {
      SanitizedIsPlainSegment(segments[i]);
    }
    RelativePathResolves(s, AttachmentFileName(uuid, originalname));
  }

  /** Round trip for avatars: the URL `saveAvatar` returns names the file it wrote. */
  lemma AvatarUrlResolves(uuid: string)
    requires IsUuid(uuid)
    ensures UrlToPath(AvatarUrl(uuid)) == Some(AvatarPath(uuid))
  {
    var f := AvatarFileName(uuid);
    assert '/' !in f && f != "" && IsPlain(f) by {
      assert forall i :: 0 <= i < 7 ==> f[i] == "avatar-"[i];
      assert forall i :: 7 <= i < 43 ==> f[i] == uuid[i - 7];
      assert forall i :: 43 <= i < 48 ==> f[i] == ".webp"[i - 43];
      assert f[0] == 'a' && |f| == 48;
    }
    JoinCons("avatars", [f], '/');
    assert Join(["avatars", f], '/') == "avatars/" + f;
    assert AvatarUrl(uuid) == "/uploads/" + Join(["avatars", f], '/');
    StripPrefixed(Join(["avatars", f], '/'));
    PlainPathResolves(["avatars", f]);
    assert Filter(["avatars", f], IsNonEmpty) == ["avatars", f] by {
      FilterAll(["avatars", f], IsNonEmpty);
    }
  }

  /** Uploads with different uuids never share a file name, whatever their original names. */
  lemma AttachmentNamesUnique(u1: string, n1: string, u2: string, n2: string)
    requires IsUuid(u1) && IsUuid(u2) && u1 != u2
    ensures AttachmentFileName(u1, n1) != AttachmentFileName(u2, n2)
  {
    assert AttachmentFileName(u1, n1)[..36] == u1;
    assert AttachmentFileName(u2, n2)[..36] == u2;
  }

  // ---------------------------------------------------------------------------
  // What the deletions leave behind
  // ---------------------------------------------------------------------------

  /** `p` is `dir` or lies somewhere below it. */
  predicate Under(dir: Path, p: Path) {
    |dir| <= |p| && p[..|dir|] == dir
  }

  /** The files after a successful `deleteFile(url)`: the file the URL resolves
      to is gone when it existed; a missing file or a directory is left alone
      (`unlinkSync` on a directory throws, and the error is swallowed). */
  function Unlinked(files: map<Path, Bytes>, url: string): (r: map<Path, Bytes>)
    ensures forall p :: p in r <==> p in files && Some(p) != UrlToPath(url)
    ensures forall p :: p in r ==> r[p] == files[p]
  {
    var target := UrlToPath(url);
    if target.Some? && target.value in files then files - {target.value} else files
  }

  /** The files after `rmSync(folder, { recursive: true })`: everything under the folder is gone. */
  function WithoutFolder(files: map<Path, Bytes>, dir: Path): (r: map<Path, Bytes>)
    ensures forall p :: p in r <==> p in files && !Under(dir, p)
    ensures forall p :: p in r ==> r[p] == files[p]
  {
    map p | p in files && !Under(dir, p) :: files[p]
  }

  /** `deleteFile` is idempotent. */
  lemma UnlinkedIdempotent(files: map<Path, Bytes>, url: string)
    ensures Unlinked(Unlinked(files, url), url) == Unlinked(files, url)
  {
  }

  /** Deleting by the returned URL undoes exactly the write of `saveAttachment`. */
  lemma UnlinkUndoesAttachment(files: map<Path, Bytes>, segments: seq<string>, uuid: string,
                               originalname: string, buffer: Bytes)
    requires IsUuid(uuid) && '/' !in originalname
    requires AttachmentPath(segments, uuid, originalname) !in files
    ensures Unlinked(files[AttachmentPath(segments, uuid, originalname) := buffer],
                     AttachmentUrl(segments, uuid, originalname)) == files
  {
    AttachmentUrlResolves(segments, uuid, originalname);
    var p := AttachmentPath(segments, uuid, originalname);
    assert files[p := buffer] - {p} == files;
  }

  /** Deleting by the returned URL undoes exactly the write of `saveAvatar`. */
  lemma UnlinkUndoesAvatar(files: map<Path, Bytes>, uuid: string, image: Bytes)
    requires IsUuid(uuid) && AvatarPath(uuid) !in files
    ensures Unlinked(files[AvatarPath(uuid) := image], AvatarUrl(uuid)) == files
  {
    AvatarUrlResolves(uuid);
    assert files[AvatarPath(uuid) := image] - {AvatarPath(uuid)} == files;
  }

  /** `deleteFolder` is idempotent. */
  lemma WithoutFolderIdempotent(files: map<Path, Bytes>, dir: Path)
    ensures WithoutFolder(WithoutFolder(files, dir), dir) == WithoutFolder(files, dir)
  {
  }

  /** A file whose path differs from the folder at one of the folder's
      positions lies outside it and survives the folder's deletion. */
  lemma SurvivesFolderDelete(files: map<Path, Bytes>, dir: Path, p: Path, k: nat)
    requires p in files && k < |dir| && k < |p| && p[k] != dir[k]
    ensures p in WithoutFolder(files, dir)
  {
    if |dir| <= |p| {
      assert p[..|dir|][k] == p[k];
    }
  }

  /** `deleteFolder` never reaches outside `attachments`: avatars and every
      other top-level entry survive it. */
  lemma WithoutFolderConfined(files: map<Path, Bytes>, segments: seq<string>, p: Path)
    requires p in files && (|p| == 0 || p[0] != "attachments")
    ensures p in WithoutFolder(files, AttachmentFolder(segments))
  {
  }

  // ---------------------------------------------------------------------------
  // The store
  // ---------------------------------------------------------------------------

  /** Every prefix of `dir`: what `mkdirSync(dir, { recursive: true })` creates. */
  function Prefixes(dir: Path): (r: set<Path>)
    ensures forall k :: 0 <= k <= |dir| ==> dir[..k] in r
    ensures forall d :: d in r ==> Under(d, dir)
  {
    set k | 0 <= k <= |dir| :: dir[..k]
  }

  /** Some proper prefix of `dir` is a file, so `mkdirSync` throws. */
  predicate MkdirBlocked(files: map<Path, Bytes>, dir: Path) {
    exists k :: 0 <= k < |dir| && dir[..k] in files
  }

  class UploadStore {
    /** Files below the uploads directory and their contents. */
    var files: map<Path, Bytes>
    /** Directories below the uploads directory; `[]` is the uploads directory itself. */
    var dirs: set<Path>

    /** The uploads directory is a tree: it and `avatars` exist, every prefix of
        a directory is a directory, every file sits in a directory, and no path
        is both a file and a directory. */
    ghost predicate Valid()
      reads this
    {
      && [] in dirs
      && ["avatars"] in dirs
      && (forall d, k :: d in dirs && 0 <= k <= |d| ==> d[..k] in dirs)
      && (forall p :: p in files ==> |p| >= 1 && p[..|p| - 1] in dirs && p !in dirs)
    }

    /** `new UploadsService()` on an empty uploads directory: it creates `avatars` and `attachments`. */
    constructor ()
      ensures Valid()
      ensures files == map[] && dirs == {[], ["avatars"], ["attachments"]}
    {
      files := map[];
      dirs := {[], ["avatars"], ["attachments"]};
      new;
      forall d, k | d in dirs && 0 <= k <= |d| ensures d[..k] in dirs {
        if k == 0 { assert d[..k] == []; } else { assert d[..k] == d; }
      }
    }

    /** ensureDirectoryExists: nothing when the path exists (as a directory or a
        file); otherwise the directory and its missing parents are created, and
        `ok` is false only when a parent is a file, so that `mkdirSync` throws. */
    method EnsureDirectoryExists(dir: Path) returns (ok: bool)
      requires Valid()
      modifies this
      ensures Valid() && files == old(files)
      ensures ok <==> !MkdirBlocked(old(files), dir)
      ensures dirs == if dir in old(dirs) || dir in old(files) || !ok then old(dirs)
                      else old(dirs) + Prefixes(dir)
    {
      if dir in dirs || dir in files {
        ok := true;
        if dir in files {
          ProperPrefixOfFileIsDir(dir);
        } else {
          assert !MkdirBlocked(files, dir) by {
            forall k | 0 <= k < |dir| ensures dir[..k] !in files {
              assert dir[..k] in dirs;
            }
          }
        }
      } else if MkdirBlocked(files, dir) {
        ok := false;
      } else {
        ok := true;
        forall k | 0 <= k <= |dir| ensures dir[..k] !in files {
          if k == |dir| { assert dir[..k] == dir; }
        }
        forall d | d in Prefixes(dir) ensures d !in files {
          assert d == dir[..|d|];
        }
        dirs := dirs + Prefixes(dir);
        PrefixesClosed(dir);
      }
    }

    /** Below a file there is nothing, and above it only directories. */
    lemma ProperPrefixOfFileIsDir(p: Path)
      requires Valid() && p in files
      ensures !MkdirBlocked(files, p)
    {
      forall k | 0 <= k < |p| ensures p[..k] !in files {
        assert p[..|p| - 1][..k] == p[..k];
      }
    }

    lemma PrefixesClosed(dir: Path)
      ensures forall d, k :: d in Prefixes(dir) && 0 <= k <= |d| ==> d[..k] in Prefixes(dir)
    {
      forall d, k | d in Prefixes(dir) && 0 <= k <= |d| ensures d[..k] in Prefixes(dir) {
        assert d[..k] == dir[..k];
      }
    }

    /** saveAttachment: the folder derived from the sanitised segments is
        created, the bytes are written verbatim under `<uuid>-<originalname>`
        whatever the MIME type, and the URL, the classification and the original
        name come back. A file standing where a folder must go makes the call
        fail and leaves the store as it was. */
    method SaveAttachment(buffer: Bytes, mimetype: string, originalname: string,
                          segments: seq<string>, uuid: string) returns (r: Result<SavedAttachment>)
      requires Valid()
      requires IsUuid(uuid) && '/' !in originalname
      requires AttachmentPath(segments, uuid, originalname) !in files
      requires AttachmentPath(segments, uuid, originalname) !in dirs
      modifies this
      ensures Valid()
      ensures r.Ok? <==> !MkdirBlocked(old(files), AttachmentFolder(segments)) && AttachmentFolder(segments) !in old(files)
      ensures r.Ok? ==> r.value == SavedAttachment(AttachmentUrl(segments, uuid, originalname), Classify(mimetype), originalname)
      ensures r.Ok? ==> files == old(files)[AttachmentPath(segments, uuid, originalname) := buffer]
      ensures r.Ok? ==> dirs == old(dirs) + Prefixes(AttachmentFolder(segments))
      ensures r.Err? ==> r.error == StorageFailure && files == old(files) && dirs == old(dirs)
    {
      var isImage := StartsWith(mimetype, "image/");
      var filename := AttachmentFileName(uuid, originalname);
      var dir := AttachmentFolder(segments);
      ghost var before := dirs;
      var ok := EnsureDirectoryExists(dir);
      if !ok || dir in files {
        // mkdirSync throws, or writeFileSync finds a file where the folder should be
        return Err(StorageFailure);
      }
      assert dir[..|dir|] == dir;
      assert dir in dirs;
      assert dirs == before + Prefixes(dir) by {
        if dir in before {
          assert forall d :: d in Prefixes(dir) ==> d in before by {
            forall d | d in Prefixes(dir) ensures d in before {
              assert d == dir[..|d|];
            }
          }
        }
      }
      var filepath := dir + [filename];
      assert filepath[..|filepath| - 1] == dir;
      if isImage {
        files := files[filepath := buffer];
      } else {
        files := files[filepath := buffer];
      }
      r := Ok(SavedAttachment(AttachmentUrl(segments, uuid, originalname), if isImage then IMAGE else FILE, originalname));
    }

    /** saveAvatar: the encoder's output is written to `avatars/avatar-<uuid>.webp`
        and its URL returned; when the encoder rejects the input (`image` is
        `None`) the call fails and nothing is written. */
    method SaveAvatar(image: Option<Bytes>, uuid: string) returns (r: Result<string>)
      requires Valid()
      requires IsUuid(uuid) && AvatarPath(uuid) !in files && AvatarPath(uuid) !in dirs
      modifies this
      ensures Valid() && dirs == old(dirs)
      ensures r.Ok? <==> image.Some?
      ensures r.Ok? ==> r.value == AvatarUrl(uuid) && files == old(files)[AvatarPath(uuid) := image.value]
      ensures r.Err? ==> r.error == StorageFailure && files == old(files)
    {
      if image.None? {
        return Err(StorageFailure);
      }
      var filepath := AvatarPath(uuid);
      assert filepath[..1] == ["avatars"];
      files := files[filepath := image.value];
      r := Ok(AvatarUrl(uuid));
    }

    /** deleteFile: best effort. The file the URL resolves to is removed when it
        exists; a missing file is a no-op, and a failing `unlinkSync` (`fault`)
        is logged and swallowed, so the call never fails. */
    method DeleteFile(url: string, fault: bool)
      requires Valid()
      modifies this
      ensures Valid() && dirs == old(dirs)
      ensures files == if fault then old(files) else Unlinked(old(files), url)
    {
      var target := UrlToPath(url);
      if target.Some? && target.value in files && !fault {
        files := files - {target.value};
      }
    }

    /** deleteFolder: best effort. Everything under `attachments/<sanitised
        segments>` goes, files and directories alike, and nothing else; a missing
        folder is a no-op, and a failing `rmSync` (`fault`) is swallowed. */
    method DeleteFolder(segments: seq<string>, fault: bool)
      requires Valid()
      modifies this
      ensures Valid()
      ensures files == if fault then old(files) else WithoutFolder(old(files), AttachmentFolder(segments))
      ensures dirs == if fault then old(dirs) else set d | d in old(dirs) && !Under(AttachmentFolder(segments), d)
    {
      var target := AttachmentFolder(segments);
      if (target in dirs || target in files) && !fault {
        var keptDirs := set d | d in dirs && !Under(target, d);
        forall d, k | d in keptDirs && 0 <= k <= |d| ensures d[..k] in keptDirs {
          assert d[..k] in dirs;
          if Under(target, d[..k]) { assert Under(target, d); }
        }
        forall p | p in WithoutFolder(files, target) ensures p[..|p| - 1] in keptDirs {
          assert p[..|p| - 1] in dirs;
          if Under(target, p[..|p| - 1]) { assert Under(target, p); }
        }
        files := WithoutFolder(files, target);
        dirs := keptDirs;
      } else if !fault {
        NothingUnderMissing(target);
      }
    }

    /** Nothing lies under a path that does not exist. */
    lemma NothingUnderMissing(target: Path)
      requires Valid() && target !in dirs && target !in files && |target| >= 1
      ensures WithoutFolder(files, target) == files
      ensures (set d | d in dirs && !Under(target, d)) == dirs
    {
      forall p | p in files ensures !Under(target, p) {
        if |target| < |p| {
          assert p[..|p| - 1][..|target|] == p[..|target|];
          assert p[..|target|] in dirs;
        } else if |target| == |p| {
          assert p[..|target|] == p;
        }
      }
      forall d | d in dirs ensures !Under(target, d) {
        if |target| <= |d| {
          assert d[..|target|] in dirs;
        }
      }
    }
  }
}
