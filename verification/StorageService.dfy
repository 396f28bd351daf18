// The storage service over its tables and its object store, updated in place. Each
// endpoint is proved to do what its step function says.
module StorageService {

  import opened Options
  import opened Paths
  import opened StorageModel
  import opened StorageTheorems

  // What an endpoint leaves behind and reports.
  function Answer(error: Option<Error>, s: Storage): Outcome {
    match error
    case None => Success(s)
    case Some(e) => Failure(s, e)
  }

  lemma ListedAt(dirs: Dirs, owner: Owner, dirPath: string, path: string)
    ensures path in ListedDirs(dirs, owner, dirPath)
            <==> (owner, path) in dirs && dirs[(owner, path)].parent == (if dirPath == "" then None else Some(dirPath))
  {
  }

  class StorageRepository {
    var files: map<FileId, FileRow>
    var dirs: Dirs

    constructor ()
      ensures files == map[] && dirs == map[]
    {
      files, dirs := map[], map[];
    }

    method CreateFile(id: FileId, row: FileRow)
      modifies this`files
      ensures files == old(files)[id := row]
    {
      files := files[id := row];
    }

    method FindFileById(id: FileId, owner: Owner) returns (r: Option<FileRow>)
      ensures r == if id in files && files[id].owner == owner then Some(files[id]) else None
    {
      if id in files && files[id].owner == owner {
        r := Some(files[id]);
      } else {
        r := None;
      }
    }

    method SoftDeleteFile(id: FileId)
      requires id in files
      modifies this`files
      ensures files == old(files)[id := old(files)[id].(active := false)]
    {
      files := files[id := files[id].(active := false)];
    }

    method UpdateFileStoragePath(id: FileId, key: string, dirPath: string, dir: string)
      requires id in files
      modifies this`files
      ensures files == old(files)[id := old(files)[id].(key := key, dirPath := dirPath, dir := dir)]
    {
      files := files[id := files[id].(key := key, dirPath := dirPath, dir := dir)];
    }

    method CreateFileCopy(id: FileId, source: FileRow, key: string, dirPath: string, dir: string)
      modifies this`files
      ensures files == old(files)[id := source.(key := key, dirPath := dirPath, dir := dir, active := true)]
    {
      files := files[id := FileRow(source.owner, source.userId, source.originalName, key, dirPath, dir,
                                   source.size, source.ext, source.kind, true)];
    }

    method CreateDirectory(owner: Owner, path: string, row: DirRow)
      requires (owner, path) !in dirs
      modifies this`dirs
      ensures dirs == old(dirs)[(owner, path) := row]
    {
      dirs := dirs[(owner, path) := row];
    }

    method UpsertDirectory(owner: Owner, path: string, row: DirRow)
      modifies this`dirs
      ensures dirs == UpsertDir(old(dirs), owner, path, row)
    {
      if (owner, path) !in dirs {
        dirs := dirs[(owner, path) := row];
      }
    }

    method FindDirectoryByPath(owner: Owner, path: string) returns (found: bool)
      ensures found <==> (owner, path) in dirs
    {
      found := (owner, path) in dirs;
    }

    method FindDirectoriesByParent(owner: Owner, parent: Option<string>) returns (paths: set<string>)
      ensures forall path :: path in paths <==> (owner, path) in dirs && dirs[(owner, path)].parent == parent
    {
      paths := set d | d in dirs && d.0 == owner && dirs[d].parent == parent :: d.1;
    }

    method FindFilesByPath(owner: Owner, dirPath: string) returns (ids: set<FileId>)
      ensures forall id :: id in ids <==> id in files && files[id].owner == owner && files[id].dirPath == dirPath && files[id].active
    {
      ids := set id | id in files && files[id].owner == owner && files[id].dirPath == dirPath && files[id].active;
    }

    method DeleteDirectory(owner: Owner, path: string)
      modifies this`dirs
      ensures dirs == old(dirs) - {(owner, path)}
    {
      dirs := dirs - {(owner, path)};
    }
  }

  class ObjectStore {
    var objects: map<string, Content>

    constructor ()
      ensures objects == map[]
    {
      objects := map[];
    }

    method CreateFolder(path: string)
      modifies this
      ensures objects == PutFolder(old(objects), path)
      ensures objects == old(objects)[(if path != "" && path[|path| - 1] == '/' then path else path + "/") := ""]
    {
      var key := if TrailingSlash(path) then path else path + "/";
      objects := objects[key := ""];
    }

    method UploadFile(key: string, content: Content)
      modifies this
      ensures objects == old(objects)[key := content]
    {
      objects := objects[key := content];
    }

    // Nothing is written when the source is missing.
    method CopyFile(source: string, dest: string) returns (copied: bool)
      modifies this
      ensures copied <==> CopyObject(old(objects), source, dest).Some?
      ensures objects == if copied then CopyObject(old(objects), source, dest).value else old(objects)
    {
      var cleanSource := StripOne(source);
      copied := cleanSource in objects;
      if copied {
        objects := objects[StripOne(dest) := objects[cleanSource]];
      }
    }

    method DeleteFile(key: string)
      modifies this
      ensures objects == old(objects) - {key}
    {
      objects := objects - {key};
    }
  }

  class StorageService {
    const repo: StorageRepository
    const store: ObjectStore
    ghost var origin: map<FileId, Content>
    ghost var run: Run

    ghost function Snapshot(): Storage
      reads this`origin, repo, store
    {
      Storage(repo.files, repo.dirs, store.objects, origin)
    }

    // What has been handled so far is a run that ends in the present state.
    ghost predicate Valid()
      reads this, repo, store
    {
      IsRun(run) && run.states[|run.reqs|] == Snapshot()
    }

    constructor ()
      ensures Valid() && Snapshot() == Empty && run.reqs == []
      ensures fresh(repo) && fresh(store)
    {
      repo := new StorageRepository();
      store := new ObjectStore();
      origin := map[];
      run := Run([Empty], []);
    }

    // ---- Directories ----

    method CreateDirectory(owner: Owner, userId: UserId, name: string, parentPath: Option<string>) returns (error: Option<Error>)
      modifies repo`dirs, store
      ensures Answer(error, Snapshot()) == CreateDirectoryStep(old(Snapshot()), owner, userId, name, parentPath)
    {
      var parent := if parentPath.Some? then parentPath.value else "";
      var slug := Slugify(name);
      var dirPath := if parent != "" then parent + "/" + slug else slug;
      assert dirPath == Under(parent, slug);
      var taken := repo.FindDirectoryByPath(owner, dirPath);
      if taken { return Some(DirectoryExists); }
      store.CreateFolder(dirPath);
      repo.CreateDirectory(owner, dirPath, DirRow(userId, name, if parent != "" then Some(parent) else None));
      return None;
    }

    method DeleteDirectory(owner: Owner, path: string) returns (error: Option<Error>)
      modifies repo`dirs
      ensures Answer(error, Snapshot()) == DeleteDirectoryStep(old(Snapshot()), owner, path)
    {
      var found := repo.FindDirectoryByPath(owner, path);
      if !found { return Some(DirectoryNotFound); }
      repo.DeleteDirectory(owner, path);
      return None;
    }

    // In a state that can be reached, the directories listed are those whose path is one
    // component below the given one.
    method GetFilesAndFolders(owner: Owner, dirPath: string) returns (directories: set<string>, files: set<FileId>)
      requires Valid()
      ensures directories == ListedDirs(repo.dirs, owner, dirPath)
      ensures forall path :: path in directories <==> (owner, path) in repo.dirs && OneBelow(path, dirPath)
      ensures forall id :: id in files <==>
                id in repo.files && repo.files[id].owner == owner && repo.files[id].dirPath == dirPath && repo.files[id].active
    {
      directories := repo.FindDirectoriesByParent(owner, if dirPath != "" then Some(dirPath) else None);
      files := repo.FindFilesByPath(owner, dirPath);
      forall path
        ensures path in directories <==> path in ListedDirs(repo.dirs, owner, dirPath)
        ensures path in directories <==> (owner, path) in repo.dirs && OneBelow(path, dirPath)
      {
        ListedAt(repo.dirs, owner, dirPath, path);
        DirectoryIndexAgreement(run, |run.reqs|, owner, dirPath, path);
      }
    }

    // The loop walks down the components and inserts each prefix that is missing.
    method EnsureDirectoryExists(owner: Owner, userId: UserId, dirPath: string)
      modifies repo`dirs
      ensures repo.dirs == EnsureDirs(old(repo.dirs), owner, userId, Split(dirPath))
    {
      var parts := Split(dirPath);
      var current := "";
      for i := 0 to |parts|
        invariant current == Reached(parts[..i])
        invariant repo.dirs == EnsureDirs(old(repo.dirs), owner, userId, parts[..i])
      {
        var parent := if current == "" then None else Some(current);
        current := if current == "" then parts[i] else current + "/" + parts[i];
        assert parts[..i + 1][..i] == parts[..i];
        repo.UpsertDirectory(owner, current, DirRow(userId, parts[i], parent));
      }
      assert parts[..|parts|] == parts;
    }

    // ---- Files ----

    // The root path of an upload and the owner its rows are filed under.
    method ResolveUploadDirectory(userId: UserId, email: string, orgId: Option<string>, org: Option<OrgInfo>)
      returns (r: Option<(string, Owner)>)
      modifies store
      ensures var s1 := PutFolder(old(store.objects), Slugify(email));
        if orgId.None? || orgId.value == "" then r == Some((Slugify(email), userId)) && store.objects == s1
        else if org.None? then r == None && store.objects == s1
        else
          var orgPath := OrgPath(email, org.value);
          r == Some((orgPath, orgId.value)) && store.objects == PutFolder(PutFolder(s1, OwnerSlug(email, org.value)), orgPath)
    {
      var userRoot := Slugify(email);
      store.CreateFolder(userRoot);
      if orgId.None? || orgId.value == "" { return Some((userRoot, userId)); }
      if org.None? { return None; }
      var ownerEmail := if org.value.ownerEmail.Some? then org.value.ownerEmail.value else email;
      var ownerSlug := Slugify(ownerEmail);
      store.CreateFolder(ownerSlug);
      var orgPath := ownerSlug + "/" + Slugify(org.value.name);
      store.CreateFolder(orgPath);
      return Some((orgPath, orgId.value));
    }

    method UploadFiles(userId: UserId, email: string, orgId: Option<string>, org: Option<OrgInfo>,
                       files: seq<Upload>, extraDir: Option<string>) returns (error: Option<Error>)
      modifies this`origin, repo, store
      ensures Answer(error, Snapshot()) == UploadFilesStep(old(Snapshot()), userId, email, orgId, org, files, extraDir)
    {
      if files == [] { return Some(NoFiles); }
      var resolved := ResolveUploadDirectory(userId, email, orgId, org);
      if resolved.None? { return Some(OrgNotFound); }
      var (rootPath, owner) := resolved.value;
      StoreFilesUnder(owner, userId, rootPath, files, extraDir);
      return None;
    }

    method StoreFilesUnder(owner: Owner, userId: UserId, rootPath: string, files: seq<Upload>, extraDir: Option<string>)
      modifies this`origin, repo, store
      ensures Snapshot() == StoreUnder(old(Snapshot()), owner, userId, rootPath, files, extraDir)
    {
      var dirPath := if extraDir.Some? && extraDir.value != "" then rootPath + "/" + extraDir.value else rootPath;
      EnsureDirectoryExists(owner, userId, dirPath);
      ghost var before := Snapshot();
      for i := 0 to |files|
        invariant Snapshot() == StoreAll(before, owner, userId, dirPath, files[..i])
      {
        var u := files[i];
        var key := NewKey(dirPath, u);
        store.UploadFile(key, u.content);
        var row := FileRow(owner, userId, u.originalName, key, dirPath, LastPart(dirPath), u.size, u.ext, u.kind, true);
        repo.CreateFile(u.id, row);
        origin := origin[u.id := u.content];
        assert files[..i + 1][..i] == files[..i];
      }
      assert files[..|files|] == files;
    }

    method MoveFile(owner: Owner, fileId: FileId, target: string) returns (error: Option<Error>)
      modifies repo`files, store
      ensures Answer(error, Snapshot()) == MoveFileStep(old(Snapshot()), owner, fileId, target)
    {
      var file := repo.FindFileById(fileId, owner);
      if file.None? { return Some(FileNotFound); }
      var fileName := Basename(file.value.key);
      var newKey := if target != "" then target + "/" + fileName else fileName;
      assert newKey == Under(target, fileName);
      hide Under, Basename, CopyObject, LastPart;
      var copied := store.CopyFile(file.value.key, newKey);
      if !copied { return Some(NoSuchKey); }
      store.DeleteFile(file.value.key);
      repo.UpdateFileStoragePath(fileId, newKey, target, LastPart(target));
      return None;
    }

    method CopyFileRecord(owner: Owner, fileId: FileId, target: string, newId: FileId, uuid: string) returns (error: Option<Error>)
      modifies this`origin, repo`files, store
      ensures Answer(error, Snapshot()) == CopyFileStep(old(Snapshot()), owner, fileId, target, newId, uuid)
    {
      hide Under, CopyName, CopyObject, LastPart;
      var file := repo.FindFileById(fileId, owner);
      if file.None? { return Some(FileNotFound); }
      var newKey := Under(target, CopyName(file.value, uuid));
      var copied := store.CopyFile(file.value.key, newKey);
      if !copied { return Some(NoSuchKey); }
      repo.CreateFileCopy(newId, file.value, newKey, target, LastPart(target));
      origin := if fileId in origin then origin[newId := origin[fileId]] else origin;
      return None;
    }

    method DeleteFile(owner: Owner, fileId: FileId) returns (error: Option<Error>)
      modifies repo`files, store
      ensures Answer(error, Snapshot()) == DeleteFileStep(old(Snapshot()), owner, fileId)
    {
      var file := repo.FindFileById(fileId, owner);
      if file.None? { return Some(FileNotFound); }
      store.DeleteFile(file.value.key);
      repo.SoftDeleteFile(fileId);
      return None;
    }

    method Dispatch(req: Request) returns (error: Option<Error>)
      modifies this`origin, repo, store
      ensures Answer(error, Snapshot()) == Step(old(Snapshot()), req)
    {
      hide UploadFilesStep, MoveFileStep, CopyFileStep, DeleteFileStep, CreateDirectoryStep, DeleteDirectoryStep;
      match req {
        case UploadFiles(userId, email, orgId, org, files, extraDir) => error := UploadFiles(userId, email, orgId, org, files, extraDir);
        case MoveFile(owner, fileId, target) => error := MoveFile(owner, fileId, target);
        case CopyFile(owner, fileId, target, newId, uuid) => error := CopyFileRecord(owner, fileId, target, newId, uuid);
        case DeleteFile(owner, fileId) => error := DeleteFile(owner, fileId);
        case CreateDirectory(owner, userId, name, parentPath) => error := CreateDirectory(owner, userId, name, parentPath);
        case DeleteDirectory(owner, path) => error := DeleteDirectory(owner, path);
      }
    }

    // Handling a request extends the run, whatever was handled before, so rows, objects
    // and directories agree afterwards.
    method Handle(req: Request) returns (error: Option<Error>)
      requires Valid() && Enabled(Snapshot(), req) && Guarded(Snapshot(), req)
      modifies this, repo, store
      ensures Valid() && run.reqs == old(run.reqs) + [req]
      ensures Answer(error, Snapshot()) == Step(old(Snapshot()), req)
      ensures Agree(Snapshot()) && DirsOk(Snapshot().dirs)
    {
      ghost var before := Snapshot();
      error := Dispatch(req);
      hide Step, Enabled, Guarded, Agree, DirsOk;
      ExtendRun(run, req);
      run := Extend(run, req);
      ReachableInv(run, |run.reqs|);
    }
  }
}
