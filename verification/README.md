# TaskManager core, modelled in Dafny

TaskManager is a personal task board. Users keep tasks in three status lanes
(TODO, IN_PROGRESS, DONE), group them into projects and attach files to them.
This project models the parts of it that hold the interesting invariants:

- **Backend storage manager** (`UploadsService`). It turns
  `[userId, projectName, taskTitle]` into a folder under `attachments/`. It
  writes uploaded bytes verbatim under `<uuid>-<originalname>` and avatars
  under `avatars/avatar-<uuid>.webp`. It returns public `/uploads/...` URLs.
  It deletes single files and whole folders on a best-effort basis.
  - The uploads directory is a class with a `files` map (path to bytes) and
    a `dirs` set.
  - The sanitiser `name.replace(/[^a-z0-9\-_]/gi, '_').toLowerCase()` is a
    pure function.
- **Backend record services.** The tables are sequences the methods reassign.
  - `TasksService`: the per-lane next-order computation (`create`), and the
    ownership-checked `findOne`, `update` and `remove`.
  - `ProjectsService`: its `remove` deletes the project's attachment folder
    and then the record.
  - `UsersService`: its `updateAvatar` deletes the previous avatar file before
    overwriting the URL. The avatar upload of the users controller runs
    `saveAvatar` first and then `updateAvatar`.
- **Frontend stores** `useTaskStore` and `useProjectStore`. These are classes
  whose methods replace the lists optimistically or after the request. A
  request's outcome is a parameter.
- **Frontend views.**
  - The Kanban board's column projection and drop rule.
  - The all-projects view's group-by-project reduction, with `-1` as the
    "no project" key.
  - The sidebar's `getInitials`, its blank-name guards and its avatar address.

JavaScript semantics are written out where they matter:

- `split`/`join` on one character.
- The sanitiser's regular expression has no `u` flag, so it replaces UTF-16 code units: a character outside the Basic Multilingual Plane becomes two `_`.
- `path.join`, which drops empty and `.` segments and climbs on `..`.
- `trim` over ECMAScript white space.
- The falsy `0` in `projectId || null` and in `task.project?.id || -1`.
- The falsy empty string in `user && user.avatarUrl`.
- `n[0]` of an empty word, which `join` prints as nothing.
- `Number.prototype.toString` for user ids.

Clocks, uuids, the database, HTTP responses and I/O failures are parameters
of the operations that use them.

Three facts about the code that a reader might not expect:

- **Deleting a task deletes no attachment folder.** `remove` in
  `tasks.service.ts` deletes only the row, so `TaskService.Remove` touches no file.
- **Tasks without a project have no folder name of their own in the code
  modelled here.** `tasks.service.ts` builds no attachment folder at all (the
  upload path goes through `addAttachmentWithFile`, which is listed under
  "Left out"). The only project-less sentinel in the modelled code is the `-1`
  group key of the all-projects view (`AllProjectsView.GroupKey`).
- **A task's order can repeat.** `update` writes a new order verbatim and
  renumbers no other task, so orders are not unique within a lane
  (`TasksService.UpdateCanShareOrder`).

## Model

| member | source | states |
|---|---|---|
| Sanitizer.SanitizeName | backend/src/uploads/uploads.service.ts:34-36 | one output character per UTF-16 code unit of the input, each in `[a-z0-9_-]`; on a name inside the Basic Multilingual Plane, ASCII letters are lower-cased, other characters the case-insensitive class keeps stay, the rest become `_` |
| Sanitizer.ReplaceUnsafe | backend/src/uploads/uploads.service.ts:35 | the replacement without the `u` flag: one character per code unit, each a kept character or `_`, kept characters unchanged in place |
| Sanitizer.ReplaceUnsafeConcat | backend/src/uploads/uploads.service.ts:35 | the replacement works character by character, so it distributes over concatenation |
| Sanitizer.SanitizeConcat | backend/src/uploads/uploads.service.ts:35 | sanitising a concatenation sanitises each part |
| Sanitizer.SanitizeChar | backend/src/uploads/uploads.service.ts:35 | a single character sanitises to its lower-cased self when the class keeps it, otherwise to one `_` per UTF-16 code unit: `_` inside the Basic Multilingual Plane, `__` outside it; with `SanitizeConcat` this fixes the result for every name |
| Sanitizer.SanitizeFixedPoints | backend/src/uploads/uploads.service.ts:35 | a name is left unchanged exactly when it is made only of `[a-z0-9_-]` |
| Sanitizer.SanitizeIdempotent | backend/src/uploads/uploads.service.ts:35 | sanitising twice equals sanitising once |
| Sanitizer.SanitizeCollides | backend/src/uploads/uploads.service.ts:35 | not injective: "Q1" and "q1" both give "q1" |
| Sanitizer.SanitizedIsPlainSegment | backend/src/uploads/uploads.service.ts:43-45 | a sanitised segment holds no `/` and no `.`, so it is never `.` or `..` and never spans directories |
| Sanitizer.SanitizeKeepsDigits | backend/src/projects/projects.service.ts:57 | the decimal form of a user id passes through the sanitiser unchanged |
| Text.Split | frontend/src/components/Sidebar.tsx:85 | at least one piece, none containing the separator |
| Text.JoinSplit | backend/src/uploads/uploads.service.ts:59 | joining the pieces of a split gives the string back |
| Text.SplitJoin | backend/src/uploads/uploads.service.ts:74-75 | splitting a join of separator-free pieces gives the pieces back |
| Text.NatToString | backend/src/projects/projects.service.ts:57 | non-empty, all decimal digits, no leading zero |
| Text.IntToString | backend/src/projects/projects.service.ts:57 | digits with a leading `-` exactly for negative numbers |
| Text.IntToStringInjective | backend/src/projects/projects.service.ts:57 | different user ids have different decimal forms |
| Text.LeadingSpaces | frontend/src/components/Sidebar.tsx:50 | the length of the white-space run `trim` removes at the front |
| Text.TrailingSpaces | frontend/src/components/Sidebar.tsx:50 | the length of the white-space run `trim` removes at the back |
| Text.Trim | frontend/src/components/Sidebar.tsx:50 | the result is a slice of the input with only white space outside it, and it neither starts nor ends with white space |
| Text.BlankIffAllSpace | frontend/src/components/Sidebar.tsx:50 | `!name.trim()` holds exactly when every character is white space |
| Sequences.Filter | backend/src/tasks/tasks.service.ts:36-40 | the kept elements all pass the test and come from the input, and every passing input element is kept |
| Sequences.FilterCount | frontend/src/store/tasks.ts:81 | a filter keeps every passing element as often as it occurs and drops every failing one |
| Sequences.SortBy | backend/src/tasks/tasks.service.ts:42 | the result is a permutation of the input, sorted by the key |
| Sequences.SortByStable | frontend/src/components/KanbanBoard.tsx:80 | elements with equal keys keep their input order |
| Uploads.SanitizeAll | backend/src/uploads/uploads.service.ts:43 | each segment sanitised, position by position |
| Uploads.AttachmentFolder | backend/src/uploads/uploads.service.ts:43-45 | the folder starts at `attachments` and every further segment is a non-empty plain name without `/` |
| Uploads.Classify | backend/src/uploads/uploads.service.ts:39 | IMAGE exactly when the MIME type starts with `image/`, FILE otherwise |
| Uploads.AttachmentUrlShape | backend/src/uploads/uploads.service.ts:59-62 | the URL is `/uploads/attachments/` + sanitised segments joined by `/` + `/` + uuid + `-` + original name |
| Uploads.AttachmentUrlPrefixed | backend/src/uploads/uploads.service.ts:59-62 | the URL is `/uploads/` followed by the relative path joined by `/` |
| Uploads.AttachmentFileNamePlain | backend/src/uploads/uploads.service.ts:40 | the stored file name is a non-empty plain name without `/` |
| Uploads.AttachmentNamesUnique | backend/src/uploads/uploads.service.ts:40 | uploads with different uuids never share a file name, whatever their original names |
| Uploads.JoinPathPlain | backend/src/uploads/uploads.service.ts:75 | joining segments free of `.` and `..` only drops the empty ones |
| Uploads.StripPrefixed | backend/src/uploads/uploads.service.ts:74 | the prefix replacement takes off exactly `/uploads/` |
| Uploads.AttachmentUrlResolves | backend/src/uploads/uploads.service.ts:74-75 | round trip: the URL `saveAttachment` returns resolves to the path it wrote |
| Uploads.AvatarUrlResolves | backend/src/uploads/uploads.service.ts:74-75 | round trip: the URL `saveAvatar` returns resolves to the path it wrote |
| Uploads.Unlinked | backend/src/uploads/uploads.service.ts:74-79 | after a delete by URL, exactly the file the URL resolves to is gone and every other file keeps its bytes |
| Uploads.UnlinkedIdempotent | backend/src/uploads/uploads.service.ts:77-79 | deleting a file twice equals deleting it once |
| Uploads.UnlinkUndoesAttachment | backend/src/uploads/uploads.service.ts:49-62 | deleting by the returned URL undoes exactly the attachment write |
| Uploads.UnlinkUndoesAvatar | backend/src/uploads/uploads.service.ts:23-31 | deleting by the returned URL undoes exactly the avatar write |
| Uploads.WithoutFolder | backend/src/uploads/uploads.service.ts:87-92 | after a folder delete, exactly the files under the folder are gone and the rest keep their bytes |
| Uploads.WithoutFolderIdempotent | backend/src/uploads/uploads.service.ts:91-92 | deleting a folder twice equals deleting it once |
| Uploads.WithoutFolderConfined | backend/src/uploads/uploads.service.ts:87-89 | a folder delete never touches anything outside `attachments`, avatars included |
| Uploads.Prefixes | backend/src/uploads/uploads.service.ts:18 | a recursive mkdir creates every prefix of the path and nothing off it |
| Uploads.UploadStore.constructor | backend/src/uploads/uploads.service.ts:11-14 | the service starts with the `avatars` and `attachments` directories |
| Uploads.UploadStore.EnsureDirectoryExists | backend/src/uploads/uploads.service.ts:16-20 | an existing path is left alone; otherwise the directory and its parents are created, and the call fails exactly when a parent is a file |
| Uploads.UploadStore.SaveAttachment | backend/src/uploads/uploads.service.ts:38-66 | the folder is created and the bytes are written verbatim whatever the MIME type; URL, classification and original name come back; a blocked folder fails with nothing changed |
| Uploads.UploadStore.SaveAvatar | backend/src/uploads/uploads.service.ts:22-32 | the encoder's output goes to `avatars/avatar-<uuid>.webp` and its URL comes back; a rejected image writes nothing |
| Uploads.UploadStore.DeleteFile | backend/src/uploads/uploads.service.ts:68-83 | the resolved file is removed when present; a missing file or a failing unlink changes nothing and raises nothing |
| Uploads.UploadStore.DeleteFolder | backend/src/uploads/uploads.service.ts:85-97 | every file and directory under the sanitised folder goes and nothing else; a missing folder or a failing `rmSync` changes nothing |
| Uploads.UploadStore.NothingUnderMissing | backend/src/uploads/uploads.service.ts:91 | nothing lies under a path that does not exist, so that delete is a no-op |
| TasksService.LaneOf | backend/src/tasks/tasks.service.ts:19 | a missing project id and the id 0 both select the null project |
| TasksService.MaxOrder | backend/src/tasks/tasks.service.ts:15-22 | none for an empty lane, otherwise an order of the lane that bounds every order of the lane |
| TasksService.NextOrder | backend/src/tasks/tasks.service.ts:23 | above every order of the lane; 0 for an empty lane; otherwise one past an order of the lane |
| TasksService.Lane | backend/src/tasks/tasks.service.ts:16-20 | exactly the tasks of that user, status and project |
| TasksService.NextOrderSameTasks | backend/src/tasks/tasks.service.ts:15-23 | stores whose lanes hold the same tasks have the same next order |
| TasksService.NextOrderBound | backend/src/tasks/tasks.service.ts:15-23 | a store holding every task of a non-empty lane of another has at least its next order |
| TasksService.NextOrderOnlyLane | backend/src/tasks/tasks.service.ts:16-20 | tasks of other users, statuses or projects do not affect the next order |
| TasksService.NextOrderSameLane | backend/src/tasks/tasks.service.ts:16-20 | equal lanes give equal next orders, however the other tasks differ |
| TasksService.NextOrderAppendOther | backend/src/tasks/tasks.service.ts:15-32 | creating a task in another lane leaves this lane's next order alone |
| TasksService.NextOrderAppendLane | backend/src/tasks/tasks.service.ts:23-32 | creating a task in the lane moves the next order up by one |
| TasksService.SequentialOrders | backend/src/tasks/tasks.service.ts:10-33 | sequential creates in an empty lane get the orders 0, 1, 2, ... |
| TasksService.UpdateCanShareOrder | backend/src/tasks/tasks.service.ts:54-60 | an update can leave two tasks of one lane with the same order, nothing being renumbered |
| TasksService.Apply | backend/src/tasks/tasks.service.ts:56-59 | supplied fields are written verbatim and omitted ones kept; id, owner and project never change |
| TasksService.ApplyIdempotent | backend/src/tasks/tasks.service.ts:58 | applying one update twice equals applying it once |
| TasksService.Patched | backend/src/tasks/tasks.service.ts:56-59 | only the row with that id changes; positions and length are kept |
| TasksService.Without | backend/src/tasks/tasks.service.ts:64-66 | exactly the rows with another id remain |
| TasksService.WithoutOne | backend/src/tasks/tasks.service.ts:62-67 | with unique ids, deleting by id removes one row and keeps the others in order |
| TasksService.FindIndex | backend/src/tasks/tasks.service.ts:47-49 | the position of a row with that id and owner, none exactly when there is no such row |
| TasksService.TaskService.constructor | backend/src/tasks/tasks.service.ts:8 | an empty table whose ids start at 1 |
| TasksService.TaskService.Create | backend/src/tasks/tasks.service.ts:10-33 | status defaults to TODO; order is the lane's next order; the row is appended with the caller as owner |
| TasksService.TaskService.FindAll | backend/src/tasks/tasks.service.ts:35-44 | exactly the caller's tasks, of one project when given, each as often as stored, in non-decreasing order |
| TasksService.TaskService.FindOne | backend/src/tasks/tasks.service.ts:46-52 | the caller's task with that id, or NotFound exactly when there is none |
| TasksService.TaskService.Update | backend/src/tasks/tasks.service.ts:54-60 | NotFound changes nothing; otherwise only that task changes and it is returned |
| TasksService.TaskService.Remove | backend/src/tasks/tasks.service.ts:62-67 | NotFound changes nothing; otherwise exactly that task is deleted and the rest keep their order |
| ProjectsService.ProjectFolderShape | backend/src/projects/projects.service.ts:56-59 | a project's folder is `attachments/<decimal user id>/<sanitised name>` |
| ProjectsService.NamesakesShareFolder | backend/src/projects/projects.service.ts:56-59 | removing a project deletes the files of every project of that user whose name sanitises alike |
| ProjectsService.OtherUsersUntouched | backend/src/projects/projects.service.ts:56-59 | removing a project never deletes another user's files |
| ProjectsService.RenameOrphansFiles | backend/src/projects/projects.service.ts:43-50 | a rename moves no file, so files saved under the old name survive removal under the new one |
| ProjectsService.Apply | backend/src/projects/projects.service.ts:46-49 | supplied name and description are written, everything else kept |
| ProjectsService.FindIndex | backend/src/projects/projects.service.ts:32-34 | the position of a row with that id and owner, none exactly when there is no such row |
| ProjectsService.ProjectService.constructor | backend/src/projects/projects.service.ts:10-13 | an empty table sharing the given storage |
| ProjectsService.ProjectService.Create | backend/src/projects/projects.service.ts:15-22 | the project is stored with the caller as owner |
| ProjectsService.ProjectService.FindAll | backend/src/projects/projects.service.ts:24-29 | exactly the caller's projects, newest first |
| ProjectsService.ProjectService.FindOne | backend/src/projects/projects.service.ts:31-41 | the caller's project with that id, or NotFound exactly when there is none |
| ProjectsService.ProjectService.Update | backend/src/projects/projects.service.ts:43-50 | NotFound changes nothing; otherwise only that project changes and no file moves |
| ProjectsService.ProjectService.Remove | backend/src/projects/projects.service.ts:52-64 | NotFound changes nothing; otherwise the project's folder is deleted, its files and directories alike and nothing else (unless the delete fails, which changes neither), and exactly that record goes |
| UsersService.PreviousAvatar | backend/src/users/users.service.ts:26-27 | some URL exactly when the user exists and has a non-empty avatar URL |
| UsersService.IndexOfId | backend/src/users/users.service.ts:26 | the first row with that id, none exactly when there is none |
| UsersService.IndexOfEmail | backend/src/users/users.service.ts:14-16 | a row with that email, none exactly when there is none |
| UsersService.UserService.constructor | backend/src/users/users.service.ts:8-11 | a table with unique ids and emails sharing the given storage |
| UsersService.UserService.FindOne | backend/src/users/users.service.ts:13-17 | the user with that email, none exactly when there is none |
| UsersService.UserService.UpdateAvatar | backend/src/users/users.service.ts:25-35 | the previous avatar file is deleted exactly when there is one and the delete does not fail; only the user's avatar URL changes; a missing user gives NotFound |
| UsersService.UserService.UpdateProfile | backend/src/users/users.service.ts:37-42 | only the user's name changes; a missing user gives NotFound |
| UsersService.UserService.UploadAvatar | backend/src/users/users.controller.ts:51-54 | the new avatar is written before the old one is deleted, so it survives unless the old URL names the same path; success changes only that user's `avatarUrl`, to the new URL; any failure leaves the users unchanged; no directory changes |
| TaskStore.Merge | frontend/src/store/tasks.ts:69 | fields present in the patch win, the others and the id are kept |
| TaskStore.UpdateById | frontend/src/store/tasks.ts:68-70 | only tasks with that id are merged; length, positions and ids are kept |
| TaskStore.UpdateByIdIdempotent | frontend/src/store/tasks.ts:69 | merging one patch twice equals merging it once |
| TaskStore.UpdateByIdCommutes | frontend/src/store/tasks.ts:68-70 | updates of different ids commute |
| TaskStore.UpdateByIdAbsent | frontend/src/store/tasks.ts:69 | an update of an absent id changes nothing |
| TaskStore.RemoveById | frontend/src/store/tasks.ts:80-82 | exactly the tasks with another id remain, each as often as before |
| TaskStore.RemoveByIdIdempotent | frontend/src/store/tasks.ts:81 | deleting twice equals deleting once |
| TaskStore.RemoveByIdConcat | frontend/src/store/tasks.ts:81 | deleting keeps the relative order of the rest |
| TaskStore.AddAttachment | frontend/src/store/tasks.ts:99-105 | the attachment goes at the end of that task's list, a missing list counting as empty; other tasks untouched |
| TaskStore.DropAttachment | frontend/src/store/tasks.ts:114-120 | that task's list becomes its filter, so attachments with that id leave it and the rest keep order and multiplicity; other tasks and an absent list stay as they were |
| TaskStore.DropUndoesAdd | frontend/src/store/tasks.ts:99-120 | deleting the attachment just uploaded gives the task its list back |
| TaskStore.TaskState.constructor | frontend/src/store/tasks.ts:44-45 | no tasks, not loading |
| TaskStore.TaskState.FetchTasks | frontend/src/store/tasks.ts:46-57 | the response replaces the list, a failure keeps it, loading always ends |
| TaskStore.TaskState.CreateTask | frontend/src/store/tasks.ts:58-65 | the server's task is appended; a failure changes nothing |
| TaskStore.TaskState.UpdateTask | frontend/src/store/tasks.ts:66-78 | the optimistic merge; a failed request refetches the whole list |
| TaskStore.TaskState.DeleteTask | frontend/src/store/tasks.ts:79-89 | the optimistic removal; a failed request refetches the whole list |
| TaskStore.TaskState.SetTasks | frontend/src/store/tasks.ts:90 | the list is replaced wholesale |
| TaskStore.TaskState.UploadAttachment | frontend/src/store/tasks.ts:91-110 | success appends the attachment; a failure is rethrown with nothing changed |
| TaskStore.TaskState.DeleteAttachment | frontend/src/store/tasks.ts:111-125 | success drops the attachment; a failure is rethrown with nothing changed |
| ProjectStore.ReplaceById | frontend/src/store/projects.ts:53 | entries with that id become the response, the others are kept in place |
| ProjectStore.ReplaceByIdIdempotent | frontend/src/store/projects.ts:53 | replacing twice equals replacing once |
| ProjectStore.ReplaceByIdKeepsIds | frontend/src/store/projects.ts:53 | the ids in the list do not change |
| ProjectStore.RemoveById | frontend/src/store/projects.ts:68 | exactly the projects with another id remain, each as often as it was listed |
| ProjectStore.RemoveByIdConcat | frontend/src/store/projects.ts:68 | removal distributes over concatenation, so the remaining projects keep their relative order |
| ProjectStore.RemoveByIdAbsent | frontend/src/store/projects.ts:68 | removing an id the list does not hold changes nothing |
| ProjectStore.Deselect | frontend/src/store/projects.ts:69 | the selection is cleared exactly when it was that project |
| ProjectStore.ProjectState.constructor | frontend/src/store/projects.ts:24-26 | no projects, no selection, not loading |
| ProjectStore.ProjectState.FetchProjects | frontend/src/store/projects.ts:28-38 | the response replaces the list, a failure keeps it, loading always ends |
| ProjectStore.ProjectState.CreateProject | frontend/src/store/projects.ts:40-47 | the server's project is prepended; a failure changes nothing |
| ProjectStore.ProjectState.UpdateProject | frontend/src/store/projects.ts:49-58 | entries with that id are replaced; a failure changes nothing |
| ProjectStore.ProjectState.SelectProject | frontend/src/store/projects.ts:60-62 | only the selection changes |
| ProjectStore.ProjectState.DeleteProject | frontend/src/store/projects.ts:64-74 | the project goes and the selection is cleared exactly when it was selected; a failure changes nothing |
| KanbanBoard.ColumnsCoverStatuses | frontend/src/components/KanbanBoard.tsx:8-12 | every status has exactly one column |
| KanbanBoard.ColumnTasks | frontend/src/components/KanbanBoard.tsx:78-80 | exactly the tasks of that status, each as often as listed, sorted by order |
| KanbanBoard.ColumnStable | frontend/src/components/KanbanBoard.tsx:80 | tasks with equal orders keep their list order in a column |
| KanbanBoard.ColumnCount | frontend/src/components/KanbanBoard.tsx:66 | the badge equals the number of cards the column shows |
| KanbanBoard.ColumnsPartition | frontend/src/components/KanbanBoard.tsx:61-80 | every task is in exactly one column, as often as it is listed |
| KanbanBoard.ColumnCountsSum | frontend/src/components/KanbanBoard.tsx:66 | the three badges add up to the number of tasks |
| KanbanBoard.DropDecision | frontend/src/components/KanbanBoard.tsx:24-48 | no update for a drop outside the columns, onto the same place or of an unlisted task; otherwise the destination column and index |
| KanbanBoard.DropMovesOnlyThatTask | frontend/src/components/KanbanBoard.tsx:44-47 | the dragged task lands in the destination column with the destination index as order; no other task is renumbered |
| KanbanBoard.OnDragEnd | frontend/src/components/KanbanBoard.tsx:24-48 | no decision leaves the store alone; a decision issues the store's optimistic update, and when that request fails the unfiltered refetch replaces the list and loading ends |
| AllProjectsView.GroupKey | frontend/src/components/AllProjectsView.tsx:38 | the project's id when present and non-zero, -1 otherwise |
| AllProjectsView.FilterStep | frontend/src/components/AllProjectsView.tsx:42 | pushing a task extends its own group at the end and no other |
| AllProjectsView.GroupByProject | frontend/src/components/AllProjectsView.tsx:37-44 | one group per key that occurs, holding exactly the tasks of that key in list order |
| AllProjectsView.TaskInExactlyOneGroup | frontend/src/components/AllProjectsView.tsx:37-44 | every task lands in its own group, as often as listed, and in no other |
| AllProjectsView.GroupSizesSum | frontend/src/components/AllProjectsView.tsx:37-44 | the group sizes sum to the number of tasks |
| AllProjectsView.ProjectTasksFiltered | frontend/src/components/AllProjectsView.tsx:110 | a project's preview shows exactly its tasks in list order, and nothing when it has none |
| AllProjectsView.ShowNoProjectIff | frontend/src/components/AllProjectsView.tsx:95 | the "no project" preview shows exactly when some task has no project or the project id 0 |
| Sidebar.First | frontend/src/components/Sidebar.tsx:86 | the first character of a word, nothing for an empty word |
| Sidebar.Firsts | frontend/src/components/Sidebar.tsx:86 | the first character of each word, word by word |
| Sidebar.UpperAscii | frontend/src/components/Sidebar.tsx:88 | ASCII lower-case letters become upper-case, other characters stay |
| Sidebar.Upper | frontend/src/components/Sidebar.tsx:88 | upper-cases character by character, keeping the length |
| Sidebar.Take | frontend/src/components/Sidebar.tsx:89 | a prefix of at most n characters, exactly n when there are that many |
| Sidebar.WordStarts | frontend/src/components/Sidebar.tsx:84-88 | reference reading: only non-space characters of the name, at most one per character |
| Sidebar.GetInitials | frontend/src/components/Sidebar.tsx:83-90 | at most two characters: the first two word-opening characters, upper-cased |
| Sidebar.InitialsAreWordStarts | frontend/src/components/Sidebar.tsx:84-87 | split/first-character/join keeps exactly the characters that open a word; empty words contribute nothing |
| Sidebar.InitialsOfEmpty | frontend/src/components/Sidebar.tsx:83-90 | an empty name has no initials |
| Sidebar.InitialsHaveNoSpace | frontend/src/components/Sidebar.tsx:83-90 | the initials never contain a space |
| Sidebar.HandleCreate | frontend/src/components/Sidebar.tsx:49-54 | no request exactly when the name is all white space; otherwise the name goes untrimmed |
| Sidebar.HandleEdit | frontend/src/components/Sidebar.tsx:63-68 | no request when no project is being edited or the name is blank; otherwise that project with the name as typed |
| Sidebar.HandleDelete | frontend/src/components/Sidebar.tsx:76-81 | without a chosen project nothing changes; otherwise the store deletes that id (the project leaves the list and the selection clears when it was that one), and the dialog closes and forgets the project |
| Sidebar.AvatarSrc | frontend/src/components/Sidebar.tsx:92-93 | no image for a missing or empty URL; otherwise the storage origin followed by the URL |
| Sidebar.AvatarSrcInjective | frontend/src/components/Sidebar.tsx:93 | different avatar URLs load from different addresses |
| Sidebar.AvatarSrcOfUpload | frontend/src/components/Sidebar.tsx:92-93 | an uploaded avatar loads from `http://localhost:8081/uploads/avatars/avatar-<uuid>.webp` |

## Left out

- **Image processing.** The `sharp` resize and WebP re-encoding in `saveAvatar` is a foreign library. Its output is a parameter, and `None` means the encoder rejected the input.
- **Uuid generation.** The uuid is an input that must be a canonical uuid and must name no existing path. Uniqueness is a precondition, not proved.
- **Original file names** are taken to hold no `/`. `path.join` would split such a name, and it is not sanitised.
- **Paths climbing out of the uploads directory.** A URL whose `..` segments climb above the uploads directory resolves to no file. Real files outside that directory are not modelled.
- **Write failures** other than a file standing where a folder must go are not modelled: disk full, permissions, and `writeFileSync` throwing.
- Uploads.UploadStore.DeleteFolder: a failing `rmSync` is modelled as deleting nothing. A partial recursive delete is not modelled.
- **Prisma and the database.** The tables are sequences in insertion order. Ties in `orderBy` are broken by that order (a stable sort), which the database does not promise. Foreign-key cascades are not modelled; the task table is not cleaned when a project goes. Timestamps are parameters.
- **Concurrency.** `create` reads the lane's maximum order and then inserts, and two concurrent creates can get the same order. Every operation here runs alone.
- `users.service.ts` `create` is not part of this model. Nor are the controllers, DTO validation, JWT guards, the AI endpoints, the auth store or any rendering.
- `addAttachmentWithFile` and `removeAttachment`, which the tasks controller calls, are not in the tasks service and are not part of this model.
- **Task patches.** The store's `Partial<Task>` patch is modelled with the four fields the board and dialogs send (title, description, status, order). A patch that rewrites `id`, `project` or `attachments` is not modelled.
- TasksService.TaskService.Create: the stored `projectId` is the raw input, 0 included, as the code writes it. Only the lane lookup treats 0 as null.
- TaskStore.TaskState.UpdateTask and TaskStore.TaskState.DeleteTask: the failure path calls `fetchTasks` without awaiting it, so the action returns while loading is still on and the optimistic list is still shown. The model's post-state is the one after that refetch has finished (and so is `KanbanBoard.OnDragEnd`'s).
- TaskStore.TaskState.FetchTasks: the response is a parameter, so the project filter the request carries is not modelled. The refetch after a failed `updateTask` or `deleteTask` carries no filter.
- Sidebar.UpperAscii: `toUpperCase` is modelled for ASCII only. Other letters keep their case, and case mappings that change the length (such as `ß` to `SS`) are not modelled.
- Sidebar.First: takes a whole character. JavaScript's `n[0]` takes one UTF-16 code unit, which can be half of a surrogate pair.
- Sidebar.Take: counts whole characters. JavaScript's `slice(0, 2)` counts UTF-16 code units, so initials outside the Basic Multilingual Plane differ.
- Uploads.UploadStore.constructor: starts from an empty uploads directory. A directory that already holds files from an earlier run is not modelled.
- Uploads.UrlToPath: drops an empty last segment, so a URL with a trailing `/` after a file name resolves to that file. In Node `path.join` keeps the slash and `existsSync` then fails, so nothing would be deleted. The callers modelled never build such a URL.
- **Drop results.** The library's string `draggableId` is taken as the number `parseInt` yields. The destination column is taken to be a valid status.
- The blank-name guard in `AllProjectsView.tsx` (lines 29-34) is the same as the sidebar's `handleCreate` and is modelled once, by `Sidebar.HandleCreate`.
- The duplicate `getInitials` in `UserProfileDialog.tsx` is the same function and is modelled once.
