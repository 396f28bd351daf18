// File rows, directory rows and stored objects, and what each storage endpoint does to
// them: one function per endpoint. Owners are opaque keys.
module StorageModel {

  import opened Options
  import opened Paths

  type Owner = string
  type UserId = string
  type FileId = string
  type Content = string

  datatype FileKind = Image | Video | Audio | Document | Other

  datatype FileRow = FileRow(
    owner: Owner, userId: UserId, originalName: string,
    key: string, dirPath: string, dir: string,
    size: nat, ext: string, kind: FileKind, active: bool)

  datatype DirRow = DirRow(userId: UserId, name: string, parent: Option<string>)

  type Dirs = map<(Owner, string), DirRow>

  // `origin` is a history of the model: what was first stored under each file id.
  datatype Storage = Storage(
    files: map<FileId, FileRow>,
    dirs: Dirs,
    objects: map<string, Content>,
    origin: map<FileId, Content>)

  // An uploaded file, with the ids drawn for it. `ext` is the extension the path library
  // finds in the original name, without its dot and lower-cased.
  datatype Upload = Upload(id: FileId, uuid: string, originalName: string, ext: string, content: Content, size: nat, kind: FileKind)

  datatype OrgInfo = OrgInfo(name: string, ownerEmail: Option<string>)

  datatype Request =
    | UploadFiles(userId: UserId, email: string, orgId: Option<string>, org: Option<OrgInfo>,
                  files: seq<Upload>, extraDir: Option<string>)
    | MoveFile(owner: Owner, fileId: FileId, target: string)
    | CopyFile(owner: Owner, fileId: FileId, target: string, newId: FileId, uuid: string)
    | DeleteFile(owner: Owner, fileId: FileId)
    | CreateDirectory(owner: Owner, userId: UserId, name: string, parentPath: Option<string>)
    | DeleteDirectory(owner: Owner, path: string)

  datatype Error = NoFiles | OrgNotFound | FileNotFound | NoSuchKey | DirectoryExists | DirectoryNotFound

  datatype Outcome = Success(state: Storage) | Failure(state: Storage, error: Error)

  // ---- The object store ----

  function FolderKey(path: string): string {
    if TrailingSlash(path) then path else path + "/"
  }

  function PutFolder(objects: map<string, Content>, path: string): map<string, Content> {
    objects[FolderKey(path) := ""]
  }

  // Copying strips one leading slash of either key; deleting strips none.
  function CopyObject(objects: map<string, Content>, source: string, dest: string): Option<map<string, Content>> {
    if StripOne(source) !in objects then None
    else Some(objects[StripOne(dest) := objects[StripOne(source)]])
  }

  // ---- Directories ----

  function UpsertDir(dirs: Dirs, owner: Owner, path: string, row: DirRow): Dirs {
    if (owner, path) in dirs then dirs else dirs[(owner, path) := row]
  }

  // The path reached after a prefix of the components.
  function Reached(parts: seq<string>): string {
    if parts == [] then "" else Under(Reached(parts[..|parts| - 1]), parts[|parts| - 1])
  }

  function EnsureDirs(dirs: Dirs, owner: Owner, userId: UserId, parts: seq<string>): Dirs {
    if parts == [] then dirs
    else
      var init := parts[..|parts| - 1];
      var parent := Reached(init);
      UpsertDir(EnsureDirs(dirs, owner, userId, init), owner, Reached(parts),
                DirRow(userId, parts[|parts| - 1], if parent == "" then None else Some(parent)))
  }

  function CreateDirectoryStep(s: Storage, owner: Owner, userId: UserId, name: string, parentPath: Option<string>): Outcome {
    var parent := if parentPath.Some? then parentPath.value else "";
    var path := Under(parent, Slugify(name));
    if (owner, path) in s.dirs then Failure(s, DirectoryExists)
    else
      Success(s.(objects := PutFolder(s.objects, path),
                 dirs := s.dirs[(owner, path) := DirRow(userId, name, if parent == "" then None else Some(parent))]))
  }

  function DeleteDirectoryStep(s: Storage, owner: Owner, path: string): Outcome {
    if (owner, path) !in s.dirs then Failure(s, DirectoryNotFound)
    else Success(s.(dirs := s.dirs - {(owner, path)}))
  }

  // The paths a listing of `dirPath` shows as directories; the empty path is the root.
  function ListedDirs(dirs: Dirs, owner: Owner, dirPath: string): set<string> {
    set d | d in dirs && d.0 == owner && dirs[d].parent == (if dirPath == "" then None else Some(dirPath)) :: d.1
  }

  // ---- Files ----

  function NewKey(dirPath: string, u: Upload): string {
    dirPath + "/" + (u.uuid + "." + u.ext)
  }

  function StoreOne(s: Storage, owner: Owner, userId: UserId, dirPath: string, u: Upload): Storage {
    var key := NewKey(dirPath, u);
    var row := FileRow(owner, userId, u.originalName, key, dirPath, LastPart(dirPath), u.size, u.ext, u.kind, true);
    s.(objects := s.objects[key := u.content], files := s.files[u.id := row], origin := s.origin[u.id := u.content])
  }

  function StoreAll(s: Storage, owner: Owner, userId: UserId, dirPath: string, us: seq<Upload>): Storage {
    if us == [] then s
    else StoreOne(StoreAll(s, owner, userId, dirPath, us[..|us| - 1]), owner, userId, dirPath, us[|us| - 1])
  }

  function OwnerSlug(email: string, org: OrgInfo): string {
    Slugify(if org.ownerEmail.Some? then org.ownerEmail.value else email)
  }

  function OrgPath(email: string, org: OrgInfo): string {
    OwnerSlug(email, org) + "/" + Slugify(org.name)
  }

  function StoreUnder(s: Storage, owner: Owner, userId: UserId, rootPath: string, files: seq<Upload>,
                      extraDir: Option<string>): Storage
  {
    var dirPath := if extraDir.Some? && extraDir.value != "" then rootPath + "/" + extraDir.value else rootPath;
    StoreAll(s.(dirs := EnsureDirs(s.dirs, owner, userId, Split(dirPath))), owner, userId, dirPath, files)
  }

  function UploadFilesStep(s: Storage, userId: UserId, email: string, orgId: Option<string>, org: Option<OrgInfo>,
                           files: seq<Upload>, extraDir: Option<string>): Outcome
  {
    if files == [] then Failure(s, NoFiles)
    else
      var s1 := s.(objects := PutFolder(s.objects, Slugify(email)));
      if orgId.None? || orgId.value == "" then Success(StoreUnder(s1, userId, userId, Slugify(email), files, extraDir))
      else if org.None? then Failure(s1, OrgNotFound)
      else
        var orgPath := OrgPath(email, org.value);
        var s2 := s1.(objects := PutFolder(PutFolder(s1.objects, OwnerSlug(email, org.value)), orgPath));
        Success(StoreUnder(s2, orgId.value, userId, orgPath, files, extraDir))
  }

  function MoveFileStep(s: Storage, owner: Owner, fileId: FileId, target: string): Outcome {
    if fileId !in s.files || s.files[fileId].owner != owner then Failure(s, FileNotFound)
    else
      var row := s.files[fileId];
      var newKey := Under(target, Basename(row.key));
      match CopyObject(s.objects, row.key, newKey)
      case None => Failure(s, NoSuchKey)
      case Some(copied) =>
        Success(s.(objects := copied - {row.key},
                   files := s.files[fileId := row.(key := newKey, dirPath := target, dir := LastPart(target))]))
  }

  function CopyName(row: FileRow, uuid: string): string {
    uuid + (if row.ext == "" then "" else "." + row.ext)
  }

  function CopyFileStep(s: Storage, owner: Owner, fileId: FileId, target: string, newId: FileId, uuid: string): Outcome {
    if fileId !in s.files || s.files[fileId].owner != owner then Failure(s, FileNotFound)
    else
      var row := s.files[fileId];
      var newKey := Under(target, CopyName(row, uuid));
      match CopyObject(s.objects, row.key, newKey)
      case None => Failure(s, NoSuchKey)
      case Some(copied) =>
        var copy := row.(key := newKey, dirPath := target, dir := LastPart(target), active := true);
        Success(s.(objects := copied, files := s.files[newId := copy],
                   origin := if fileId in s.origin then s.origin[newId := s.origin[fileId]] else s.origin))
  }

  function DeleteFileStep(s: Storage, owner: Owner, fileId: FileId): Outcome {
    if fileId !in s.files || s.files[fileId].owner != owner then Failure(s, FileNotFound)
    else
      Success(s.(objects := s.objects - {s.files[fileId].key},
                 files := s.files[fileId := s.files[fileId].(active := false)]))
  }

  function Step(s: Storage, req: Request): Outcome {
    match req
    case UploadFiles(userId, email, orgId, org, files, extraDir) => UploadFilesStep(s, userId, email, orgId, org, files, extraDir)
    case MoveFile(owner, fileId, target) => MoveFileStep(s, owner, fileId, target)
    case CopyFile(owner, fileId, target, newId, uuid) => CopyFileStep(s, owner, fileId, target, newId, uuid)
    case DeleteFile(owner, fileId) => DeleteFileStep(s, owner, fileId)
    case CreateDirectory(owner, userId, name, parentPath) => CreateDirectoryStep(s, owner, userId, name, parentPath)
    case DeleteDirectory(owner, path) => DeleteDirectoryStep(s, owner, path)
  }
}
