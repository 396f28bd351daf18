// What each storage request does, exactly when it succeeds, and what it leaves alone; and
// that what was uploaded stays readable until it is deleted.
module StorageLaws {

  import opened Options
  import opened Paths
  import opened StorageModel
  import opened StorageTheorems

  // ---- Uploads: where they go ----

  predicate ToOrg(req: Request)
    requires req.UploadFiles?
  {
    req.orgId.Some? && req.orgId.value != ""
  }

  // There is something to store, and an organisation that is named exists.
  predicate Accepted(req: Request)
    requires req.UploadFiles?
  {
    req.files != [] && (ToOrg(req) ==> req.org.Some?)
  }

  // The rows are filed under the organisation, without one under the user.
  function FiledUnder(req: Request): Owner
    requires req.UploadFiles?
  {
    if ToOrg(req) then req.orgId.value else req.userId
  }

  // The final path: the slug of the user's address, or that of the organisation's owner
  // followed by the organisation's name; then the extra path.
  function FinalPath(req: Request): string
    requires req.UploadFiles? && Accepted(req)
  {
    var root :=
      if !ToOrg(req) then Slugify(req.email)
      else Slugify(match req.org.value.ownerEmail case Some(e) => e case None => req.email) + "/" + Slugify(req.org.value.name);
    match req.extraDir
    case Some(extra) => if extra == "" then root else root + "/" + extra
    case None => root
  }

  // ---- Uploads: the loop over the files ----

  // The file has an active row under its own key, and its content lies there.
  predicate Filed(t: Storage, owner: Owner, userId: UserId, path: string, u: Upload) {
    var key := path + "/" + (u.uuid + "." + u.ext);
    && u.id in t.files
    && t.files[u.id] == FileRow(owner, userId, u.originalName, key, path, LastPart(path), u.size, u.ext, u.kind, true)
    && key in t.objects && t.objects[key] == u.content
    && u.id in t.origin && t.origin[u.id] == u.content
  }

  predicate Named(us: seq<Upload>) {
    && (forall i :: 0 <= i < |us| ==> UuidOk(us[i].uuid) && '/' !in us[i].ext)
    && (forall i, j :: 0 <= i < j < |us| ==> us[i].id != us[j].id && us[i].uuid != us[j].uuid)
  }

  lemma KeysDiffer(path: string, u: Upload, v: Upload)
    requires UuidOk(u.uuid) && '/' !in u.ext && UuidOk(v.uuid) && '/' !in v.ext && u.uuid != v.uuid
    ensures NewKey(path, u) != NewKey(path, v)
  {
    NewStem(path, u);
    NewStem(path, v);
    hide NewKey, Stem, LastPart;
  }

  lemma {:induction false} StoredAt(s: Storage, owner: Owner, userId: UserId, path: string, us: seq<Upload>, i: nat)
    requires Named(us) && i < |us|
    ensures Filed(StoreAll(s, owner, userId, path, us), owner, userId, path, us[i])
  {
    var init, last := us[..|us| - 1], us[|us| - 1];
    hide LastPart, UuidOk;
    if i < |init| {
      StoredAt(s, owner, userId, path, init, i);
      KeysDiffer(path, us[i], last);
    }
  }

  lemma {:induction false} NotStored(s: Storage, owner: Owner, userId: UserId, path: string, us: seq<Upload>)
    ensures var t := StoreAll(s, owner, userId, path, us);
      && t.dirs == s.dirs
      && (forall id :: (forall i :: 0 <= i < |us| ==> us[i].id != id) ==>
            (id in t.files <==> id in s.files) && (id in s.files ==> t.files[id] == s.files[id]))
      && (forall key :: (forall i :: 0 <= i < |us| ==> NewKey(path, us[i]) != key) ==>
            (key in t.objects <==> key in s.objects) && (key in s.objects ==> t.objects[key] == s.objects[key]))
  {
    hide NewKey, LastPart;
    if us != [] {
      NotStored(s, owner, userId, path, us[..|us| - 1]);
    }
  }

  // ---- Uploads: the whole request ----

  function Marked(objects: map<string, Content>, req: Request): map<string, Content>
    requires req.UploadFiles? && Accepted(req)
  {
    var o := PutFolder(objects, Slugify(req.email));
    if !ToOrg(req) then o
    else PutFolder(PutFolder(o, OwnerSlug(req.email, req.org.value)), OrgPath(req.email, req.org.value))
  }

  lemma UploadState(s: Storage, req: Request)
    requires req.UploadFiles? && Accepted(req)
    ensures Step(s, req)
            == Success(StoreAll(s.(objects := Marked(s.objects, req),
                                   dirs := EnsureDirs(s.dirs, FiledUnder(req), req.userId, Split(FinalPath(req)))),
                                FiledUnder(req), req.userId, FinalPath(req), req.files))
  {
    hide Slugify, PutFolder, StoreAll, EnsureDirs, Split;
  }

  lemma NoSlashAtEnd(s: string)
    requires '/' !in s
    ensures !TrailingSlash(s)
  {
  }

  // An upload succeeds exactly when it is accepted; without files it changes nothing, and
  // for an unknown organisation it only marks the user's folder.
  lemma UploadSucceedsIff(s: Storage, req: Request)
    requires req.UploadFiles?
    ensures Step(s, req).Success? <==> Accepted(req)
    ensures req.files == [] ==> Step(s, req) == Failure(s, NoFiles)
    ensures req.files != [] && !Accepted(req) ==>
              Step(s, req) == Failure(s.(objects := s.objects[Slugify(req.email) + "/" := ""]), OrgNotFound)
  {
    SlugShape(req.email);
    NoSlashAtEnd(Slugify(req.email));
    hide Slugify, StoreAll, EnsureDirs, Split;
    if Accepted(req) { UploadState(s, req); }
  }

  lemma UploadsNamed(s: Storage, req: Request)
    requires req.UploadFiles? && Enabled(s, req)
    ensures Named(req.files) && forall i :: 0 <= i < |req.files| ==> req.files[i].id !in s.files
  {
    hide Stem, LastPart;
  }

  // Afterwards every prefix of the final path is a directory of the owner, the path is
  // reached by listings from the root, older rows are as they were, and every other row
  // is such a prefix, with its name and its parent.
  lemma UploadEnsuresDirectories(s: Storage, req: Request)
    requires req.UploadFiles? && Accepted(req) && DirsOk(s.dirs)
    ensures var before, after, owner, path := s.dirs, Step(s, req).state.dirs, FiledUnder(req), FinalPath(req);
      && (forall q :: IsPrefix(path, q) ==> (owner, q) in after)
      && ReachedByListings(after, owner, StripLeading(path), |Split(StripLeading(path))|)
      && (forall d :: d in before ==> d in after && after[d] == before[d])
      && (forall d :: d in after && d !in before ==>
            d.0 == owner && IsPrefix(path, d.1) && after[d] == DirRow(req.userId, LastPart(d.1), ParentOf(d.1)))
  {
    var owner, path := FiledUnder(req), FinalPath(req);
    hide FiledUnder, FinalPath, ParentOf, LastPart;
    UploadState(s, req);
    hide Step, Split, EnsureDirs, Passed, IsPrefix, ReachedByListings, StripLeading, Marked;
    NotStored(s.(objects := Marked(s.objects, req), dirs := EnsureDirs(s.dirs, owner, req.userId, Split(path))),
              owner, req.userId, path, req.files);
    SplitJoin(path);
    EnsureDirsEffect(s.dirs, owner, req.userId, Split(path));
    TargetReachable(s.dirs, owner, req.userId, path);
    forall q ensures Passed(Split(path), q) <==> IsPrefix(path, q) {
      PassedArePrefixes(path, q);
    }
  }

  // The key of the marker of a folder: the path with one slash at its end.
  function MarkerOf(path: string): string {
    if path != "" && path[|path| - 1] == '/' then path else path + "/"
  }

  // The folders an upload marks: the user's, and the owner's and the organisation's.
  function MarkedFolders(req: Request): set<string>
    requires req.UploadFiles? && Accepted(req)
  {
    var own := MarkerOf(Slugify(req.email));
    if !ToOrg(req) then {own}
    else
      var owner := Slugify(match req.org.value.ownerEmail case Some(e) => e case None => req.email);
      {own, MarkerOf(owner), MarkerOf(owner + "/" + Slugify(req.org.value.name))}
  }

  lemma MarkedIs(objects: map<string, Content>, req: Request, key: string)
    requires req.UploadFiles? && Accepted(req)
    ensures key in MarkedFolders(req) ==> key in Marked(objects, req) && Marked(objects, req)[key] == ""
    ensures key !in MarkedFolders(req) ==>
              (key in Marked(objects, req) <==> key in objects) && (key in objects ==> Marked(objects, req)[key] == objects[key])
  {
    hide Slugify;
    assert forall path :: MarkerOf(path) == FolderKey(path);
    hide MarkerOf, FolderKey;
  }

  lemma FileKeyEnd(path: string, uuid: string, ext: string)
    requires '/' !in ext
    ensures !TrailingSlash(path + "/" + (uuid + "." + ext))
  {
    var key := path + "/" + (uuid + "." + ext);
    assert key[|key| - 1] == if ext == "" then '.' else ext[|ext| - 1];
  }

  lemma MarkerEnd(path: string)
    ensures TrailingSlash(MarkerOf(path))
  {
  }

  lemma FileKeyIsNoMarker(path: string, u: Upload, req: Request)
    requires req.UploadFiles? && Accepted(req) && '/' !in u.ext
    ensures path + "/" + (u.uuid + "." + u.ext) !in MarkedFolders(req)
  {
    FileKeyEnd(path, u.uuid, u.ext);
    hide Slugify, TrailingSlash, MarkerOf;
    forall key | key in MarkedFolders(req) ensures TrailingSlash(key) {
      forall p ensures TrailingSlash(MarkerOf(p)) { MarkerEnd(p); }
    }
  }

  // Every uploaded file is filed at the final path; no other row changes. The folders are
  // marked, and no other object changes.
  lemma UploadFilesAll(s: Storage, req: Request)
    requires req.UploadFiles? && Accepted(req) && Enabled(s, req)
    ensures var t, us, path := Step(s, req).state, req.files, FinalPath(req);
      && (forall i :: 0 <= i < |us| ==> Filed(t, FiledUnder(req), req.userId, path, us[i]))
      && (forall id :: id in s.files ==> id in t.files && t.files[id] == s.files[id])
      && (forall id :: id in t.files && id !in s.files ==> exists i :: 0 <= i < |us| && us[i].id == id)
      && (forall key :: key in MarkedFolders(req) ==> key in t.objects && t.objects[key] == "")
      && (forall key :: key !in MarkedFolders(req) && (forall i :: 0 <= i < |us| ==> path + "/" + (us[i].uuid + "." + us[i].ext) != key) ==>
            (key in t.objects <==> key in s.objects) && (key in s.objects ==> t.objects[key] == s.objects[key]))
  {
    UploadsNamed(s, req);
    UploadState(s, req);
    var owner, path, us := FiledUnder(req), FinalPath(req), req.files;
    var s1 := s.(objects := Marked(s.objects, req), dirs := EnsureDirs(s.dirs, owner, req.userId, Split(path)));
    forall i | 0 <= i < |us| ensures path + "/" + (us[i].uuid + "." + us[i].ext) !in MarkedFolders(req) {
      FileKeyIsNoMarker(path, us[i], req);
    }
    hide FiledUnder, FinalPath, Step, Enabled, Split, EnsureDirs, Marked, Filed, Named, MarkedFolders;
    forall i | 0 <= i < |us| ensures Filed(Step(s, req).state, owner, req.userId, path, us[i]) {
      StoredAt(s1, owner, req.userId, path, us, i);
    }
    NotStored(s1, owner, req.userId, path, us);
    forall key
      ensures key in MarkedFolders(req) ==> key in s1.objects && s1.objects[key] == ""
      ensures key !in MarkedFolders(req) ==> (key in s1.objects <==> key in s.objects) && (key in s.objects ==> s1.objects[key] == s.objects[key])
    {
      MarkedIs(s.objects, req, key);
    }
  }

  // ---- Moves, copies and deletions ----

  // The key of a file called `name` in the directory `dir`.
  function KeyIn(dir: string, name: string): string {
    if dir == "" then name else dir + "/" + name
  }

  predicate Found(s: Storage, owner: Owner, fileId: FileId) {
    fileId in s.files && s.files[fileId].owner == owner
  }

  // The file at a new key in another directory: the row follows, and its object lies there
  // under the same content and nowhere else.
  function Moved(s: Storage, id: FileId, key: string, target: string): Storage
    requires id in s.files && s.files[id].key in s.objects
  {
    s.(files := s.files[id := s.files[id].(key := key, dirPath := target, dir := LastPart(target))],
       objects := s.objects[key := s.objects[s.files[id].key]] - {s.files[id].key})
  }

  // A move succeeds exactly for an active file of the owner: the file moves to the target
  // under its old name, and nothing else changes.
  lemma MoveEffect(s: Storage, req: Request)
    requires Inv(s) && req.MoveFile? && Guarded(s, req)
    ensures var id := req.fileId;
      if !Found(s, req.owner, id) then Step(s, req) == Failure(s, FileNotFound)
      else if !s.files[id].active then Step(s, req) == Failure(s, NoSuchKey)
      else
        var key := KeyIn(req.target, LastPart(s.files[id].key));
        && key != s.files[id].key && s.files[id].key in s.objects
        && Step(s, req) == Success(Moved(s, id, key, req.target))
  {
    hide Step;
    NotFoundStep(s, req);
    if Found(s, req.owner, req.fileId) {
      var row := s.files[req.fileId];
      MovedKey(s, req.fileId, req.target);
      hide Inv, LastPart, KeyIn, Basename, StripOne, Guarded, Found, Moved, Under;
      MoveStepIs(s, req, row, KeyIn(req.target, LastPart(row.key)));
    }
  }

  lemma NotFoundStep(s: Storage, req: Request)
    requires req.MoveFile? || req.CopyFile? || req.DeleteFile?
    ensures !Found(s, req.owner, req.fileId) ==> Step(s, req) == Failure(s, FileNotFound)
  {
    hide UploadFilesStep, CreateDirectoryStep, DeleteDirectoryStep, CopyObject;
  }

  lemma MovedKey(s: Storage, fileId: FileId, target: string)
    requires Inv(s) && fileId in s.files && !LeadingSlash(target) && target != s.files[fileId].dirPath
    ensures var row := s.files[fileId];
      var key := KeyIn(target, LastPart(row.key));
      && key == Under(target, Basename(row.key)) && LastPart(key) == LastPart(row.key) && key != row.key
      && StripOne(row.key) == row.key && StripOne(key) == key
      && (row.key in s.objects <==> row.active)
  {
    var row := s.files[fileId];
    SourceOfCopy(s, fileId);
    assert RowOk(row);
    assert row.active ==> row.key in s.objects;
    BasenameOfKey(row);
    hide Inv, Basename;
    UnderParts(target, LastPart(row.key));
    UnderLeading(target, LastPart(row.key));
    if Under(target, LastPart(row.key)) == row.key { UnderInjective(target, row.dirPath, LastPart(row.key)); }
    hide LastPart, LeadingSlash;
  }

  lemma MoveStepIs(s: Storage, req: Request, row: FileRow, key: string)
    requires req.MoveFile? && Found(s, req.owner, req.fileId) && row == s.files[req.fileId]
    requires key == Under(req.target, Basename(row.key)) && StripOne(row.key) == row.key && StripOne(key) == key
    ensures Step(s, req) ==
      if row.key !in s.objects then Failure(s, NoSuchKey) else Success(Moved(s, req.fileId, key, req.target))
  {
    hide StripOne, Under, Basename, LastPart;
  }

  // A second file with the content of the first.
  function Copied(s: Storage, id: FileId, newId: FileId, key: string, target: string): Storage
    requires id in s.files && s.files[id].key in s.objects && id in s.origin
  {
    s.(files := s.files[newId := s.files[id].(key := key, dirPath := target, dir := LastPart(target), active := true)],
       objects := s.objects[key := s.objects[s.files[id].key]],
       origin := s.origin[newId := s.origin[id]])
  }

  // A copy succeeds exactly for an active file of the owner: there is a second file, at a
  // key where nothing lay; the source and everything else stay.
  lemma CopyEffect(s: Storage, req: Request)
    requires Inv(s) && req.CopyFile? && Enabled(s, req) && Guarded(s, req)
    ensures var id := req.fileId;
      if !Found(s, req.owner, id) then Step(s, req) == Failure(s, FileNotFound)
      else if !s.files[id].active then Step(s, req) == Failure(s, NoSuchKey)
      else
        var key := CopiedKey(s.files[id], req.target, req.uuid);
        && key !in s.objects && req.newId !in s.files && s.files[id].key in s.objects && id in s.origin
        && Step(s, req) == Success(Copied(s, id, req.newId, key, req.target))
  {
    hide Step;
    NotFoundStep(s, req);
    if Found(s, req.owner, req.fileId) {
      var row := s.files[req.fileId];
      SourceOfCopy(s, req.fileId);
      assert row.active ==> row.key in s.objects by { assert RowsHaveObjects(s); }
      CopiedKeyOk(s, row, req);
      hide Inv, LastPart, CopiedKey, StripOne, Enabled, Found, Copied;
      CopyStateIs(s, req, row, CopiedKey(row, req.target, req.uuid));
    }
  }

  // The new name: the drawn uuid with the extension, if there is one.
  function CopiedKey(row: FileRow, target: string, uuid: string): string {
    KeyIn(target, if row.ext == "" then uuid else uuid + ("." + row.ext))
  }

  lemma CopiedKeyOk(s: Storage, row: FileRow, req: Request)
    requires Inv(s) && req.CopyFile? && Enabled(s, req) && !LeadingSlash(req.target) && '/' !in row.ext
    ensures var key := CopiedKey(row, req.target, req.uuid);
      key == Under(req.target, CopyName(row, req.uuid)) && StripOne(key) == key && key !in s.objects && req.newId !in s.files
  {
    var key := CopiedKey(row, req.target, req.uuid);
    assert key == Under(req.target, CopyName(row, req.uuid));
    var copy := row.(key := key, dirPath := req.target, dir := LastPart(req.target), active := true);
    hide LastPart, Under, CopyName, StripOne, CopiedKey, Stem, Inv;
    CopiedRowOk(row, req.target, req.uuid, copy);
    FreshKey(s, req.newId, req.uuid, copy);
  }

  lemma CopyStateIs(s: Storage, req: Request, row: FileRow, key: string)
    requires req.CopyFile? && Found(s, req.owner, req.fileId) && row == s.files[req.fileId]
    requires key == Under(req.target, CopyName(row, req.uuid)) && StripOne(row.key) == row.key && StripOne(key) == key
    requires row.key in s.objects ==> req.fileId in s.origin
    ensures Step(s, req) ==
      if row.key !in s.objects then Failure(s, NoSuchKey) else Success(Copied(s, req.fileId, req.newId, key, req.target))
  {
    hide StripOne, Under, CopyName, LastPart;
  }

  // Nothing lies yet at the key of a row with a fresh name.
  lemma FreshKey(s: Storage, id: FileId, uuid: string, copy: FileRow)
    requires Inv(s) && FreshFile(s, id, uuid) && RowOk(copy) && Stem(LastPart(copy.key)) == uuid
    ensures copy.key !in s.objects
  {
    BasenameOfKey(copy);
    hide Stem, LastPart, TrailingSlash, RowOk;
    forall a | a in s.files ensures s.files[a].key != copy.key {
      assert Stem(LastPart(s.files[a].key)) != uuid;
    }
    assert !HasActiveRow(s, copy.key);
  }

  // Deleting marks the row and removes its object, and nothing else.
  lemma DeleteEffect(s: Storage, req: Request)
    requires req.DeleteFile?
    ensures var t, id := Step(s, req).state, req.fileId;
      if !Found(s, req.owner, id) then Step(s, req) == Failure(s, FileNotFound)
      else
        && Step(s, req) == Success(t)
        && id in t.files && !t.files[id].active && s.files[id].key !in t.objects
        && t == s.(files := s.files[id := s.files[id].(active := false)], objects := s.objects - {s.files[id].key})
  {
  }

  // ---- Directories ----

  // A directory is created exactly when its path is not taken: a row with its name and its
  // parent, and a marker under the path with one trailing slash.
  lemma CreateDirectoryEffect(s: Storage, req: Request)
    requires req.CreateDirectory?
    ensures var path := KeyIn(if req.parentPath.Some? then req.parentPath.value else "", Slugify(req.name));
      if (req.owner, path) in s.dirs then Step(s, req) == Failure(s, DirectoryExists)
      else
        Step(s, req) == Success(s.(
          objects := s.objects[MarkerOf(path) := ""],
          dirs := s.dirs[(req.owner, path) :=
            DirRow(req.userId, req.name, if req.parentPath == Some("") then None else req.parentPath)]))
  {
    hide Slugify;
  }

  lemma DeleteDirectoryEffect(s: Storage, req: Request)
    requires req.DeleteDirectory?
    ensures Step(s, req) ==
      if (req.owner, req.path) in s.dirs then Success(s.(dirs := s.dirs - {(req.owner, req.path)}))
      else Failure(s, DirectoryNotFound)
  {
  }

  // ---- Files over whole runs ----

  lemma FileStays(s: Storage, req: Request, id: FileId)
    requires Inv(s) && Enabled(s, req) && Guarded(s, req) && id in s.files && s.files[id].active
    requires !(req.DeleteFile? && req.fileId == id && req.owner == s.files[id].owner)
    ensures var t := Step(s, req).state;
      && id in t.files && t.files[id].active && t.files[id].owner == s.files[id].owner
      && t.files[id].originalName == s.files[id].originalName
  {
    hide Step, Inv, Enabled, Guarded;
    match req {
      case UploadFiles(_, _, _, _, _, _) => UploadKeepsFile(s, req, id);
      case MoveFile(_, _, _) => MoveKeepsFile(s, req, id);
      case CopyFile(_, _, _, _, _) => CopyKeepsFile(s, req, id);
      case DeleteFile(_, _) => DeleteEffect(s, req);
      case CreateDirectory(_, _, _, _) => DirectoriesKeepFiles(s, req);
      case DeleteDirectory(_, _) => DirectoriesKeepFiles(s, req);
    }
  }

  lemma UploadKeepsFile(s: Storage, req: Request, id: FileId)
    requires req.UploadFiles? && Enabled(s, req) && id in s.files
    ensures id in Step(s, req).state.files && Step(s, req).state.files[id] == s.files[id]
  {
    hide Step, Enabled, FinalPath, Filed, Slugify;
    UploadSucceedsIff(s, req);
    if Accepted(req) { UploadFilesAll(s, req); }
  }

  lemma MoveKeepsFile(s: Storage, req: Request, id: FileId)
    requires Inv(s) && req.MoveFile? && Guarded(s, req) && id in s.files && s.files[id].active
    ensures var t := Step(s, req).state;
      && id in t.files && t.files[id].active && t.files[id].owner == s.files[id].owner
      && t.files[id].originalName == s.files[id].originalName
  {
    hide Step, Inv, Guarded, KeyIn, LastPart;
    MoveEffect(s, req);
  }

  lemma CopyKeepsFile(s: Storage, req: Request, id: FileId)
    requires Inv(s) && req.CopyFile? && Enabled(s, req) && Guarded(s, req) && id in s.files
    ensures id in Step(s, req).state.files && Step(s, req).state.files[id] == s.files[id]
  {
    assert req.newId !in s.files by { hide Stem, LastPart, UuidOk; }
    hide Step, Inv, Enabled, Guarded, KeyIn, LastPart;
    CopyEffect(s, req);
  }

  lemma DirectoriesKeepFiles(s: Storage, req: Request)
    requires req.CreateDirectory? || req.DeleteDirectory?
    ensures Step(s, req).state.files == s.files
  {
    hide Slugify, Under, PutFolder;
  }

  // A file stays with its owner and its name, and can be read with the content it was
  // stored with, through any moves, copies and other requests, until its owner deletes it.
  lemma {:induction false} FileSurvives(r: Run, i: nat, m: nat, id: FileId)
    requires IsRun(r) && i <= m < |r.states| && id in r.states[i].files && r.states[i].files[id].active
    requires forall n :: i <= n < m ==>
               !(r.reqs[n].DeleteFile? && r.reqs[n].fileId == id && r.reqs[n].owner == r.states[i].files[id].owner)
    ensures var before, after := r.states[i], r.states[m];
      && id in after.files && after.files[id].active && after.files[id].owner == before.files[id].owner
      && after.files[id].originalName == before.files[id].originalName
      && before.files[id].key in before.objects && after.files[id].key in after.objects
      && after.objects[after.files[id].key] == before.objects[before.files[id].key]
  {
    hide Inv, Step, Enabled, Guarded;
    ReachableInv(r, i);
    RowsOf(r.states[i], id);
    if i < m {
      FileSurvives(r, i, m - 1, id);
      ReachableInv(r, m - 1);
      ReachableInv(r, m);
      assert StepAt(r, m - 1);
      FileSurvivesStep(r.states[m - 1], r.reqs[m - 1], id);
    }
  }

  lemma FileSurvivesStep(s: Storage, req: Request, id: FileId)
    requires Inv(s) && Inv(Step(s, req).state) && Enabled(s, req) && Guarded(s, req) && id in s.files && s.files[id].active
    requires !(req.DeleteFile? && req.fileId == id && req.owner == s.files[id].owner)
    ensures var t := Step(s, req).state;
      && id in t.files && t.files[id].active && t.files[id].owner == s.files[id].owner
      && t.files[id].originalName == s.files[id].originalName
      && s.files[id].key in s.objects && t.files[id].key in t.objects
      && t.objects[t.files[id].key] == s.objects[s.files[id].key]
  {
    hide Inv, Step, Enabled, Guarded;
    FileStays(s, req, id);
    RowsOf(s, id);
    RowsOf(Step(s, req).state, id);
    OriginStays(s, req, id);
  }

  lemma RowsOf(s: Storage, id: FileId)
    requires Inv(s) && id in s.files && s.files[id].active
    ensures s.files[id].key in s.objects && id in s.origin && s.objects[s.files[id].key] == s.origin[id]
  {
    assert RowsHaveObjects(s);
    hide RowsOk, NamesDistinct, DirsOk, ObjectsHaveRows;
  }
}
