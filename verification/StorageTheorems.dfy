// Storage over whole runs: file rows, objects and directory rows agree.
module StorageTheorems {

  import opened Options
  import opened Paths
  import opened StorageModel

  // ---- Directories: the loop that splits a path ----

  predicate Plain(parts: seq<string>) {
    forall i :: 0 <= i < |parts| ==> '/' !in parts[i]
  }

  // A row names the last component of its path and points at what precedes it.
  predicate DirOk(path: string, row: DirRow) {
    row.parent == ParentOf(path)
  }

  ghost predicate DirsOk(dirs: Dirs) {
    forall d :: d in dirs ==> DirOk(d.1, dirs[d])
  }

  lemma ReachedStep(parts: seq<string>)
    requires parts != [] && Plain(parts)
    ensures var parent := Reached(parts[..|parts| - 1]);
      && ParentOf(Reached(parts)) == (if parent == "" then None else Some(parent))
      && LastPart(Reached(parts)) == parts[|parts| - 1]
  {
    UnderParts(Reached(parts[..|parts| - 1]), parts[|parts| - 1]);
  }

  lemma ReachedSnoc(parts: seq<string>, last: string)
    ensures Reached(parts + [last]) == Under(Reached(parts), last)
  {
    assert (parts + [last])[..|parts|] == parts;
  }

  // The loop ends at the path without its leading slashes.
  lemma {:induction false} ReachedPath(path: string)
    ensures Reached(Split(path)) == StripLeading(path)
    decreases |path|
  {
    hide Reached, Under;
    if LastSlash(path) == -1 {
      ReachedSingle(path);
      if path != "" { assert path[0] in path; }
    } else {
      var init, last := path[..LastSlash(path)], LastPart(path);
      ReachedPath(init);
      ReachedSnoc(Split(init), last);
      assert path == init + "/" + last;
      StripLeadingUnder(init, last);
    }
  }

  lemma ReachedSingle(part: string)
    ensures Reached([part]) == part
  {
    assert [part][..0] == [];
    assert Reached([part][..0]) == "";
  }

  // The paths the loop passes through.
  ghost predicate Passed(parts: seq<string>, path: string) {
    exists i :: 0 < i <= |parts| && Reached(parts[..i]) == path
  }

  lemma PassedStep(parts: seq<string>, path: string)
    requires parts != []
    ensures Passed(parts, path) <==> Passed(parts[..|parts| - 1], path) || path == Reached(parts)
  {
    hide Reached;
    var init := parts[..|parts| - 1];
    if Passed(parts, path) {
      var i :| 0 < i <= |parts| && Reached(parts[..i]) == path;
      if i < |parts| {
        assert init[..i] == parts[..i];
      } else {
        assert parts[..i] == parts;
      }
    }
    if Passed(init, path) {
      var i :| 0 < i <= |init| && Reached(init[..i]) == path;
      assert init[..i] == parts[..i];
    }
    if path == Reached(parts) {
      assert parts[..|parts|] == parts;
    }
  }

  // A prefix of the path that ends before a slash or at its end, without its leading
  // slashes.
  predicate PrefixAt(path: string, q: string, k: int) {
    0 <= k <= |path| && (k == |path| || path[k] == '/') && StripLeading(path[..k]) == q
  }

  ghost predicate IsPrefix(path: string, q: string) {
    exists k :: PrefixAt(path, q, k)
  }

  lemma PrefixStep(path: string, q: string)
    ensures LastSlash(path) == -1 ==> (IsPrefix(path, q) <==> q == StripLeading(path))
    ensures LastSlash(path) != -1 ==> (IsPrefix(path, q) <==> IsPrefix(path[..LastSlash(path)], q) || q == StripLeading(path))
  {
    hide StripLeading;
    assert path[..|path|] == path;
    if q == StripLeading(path) { assert PrefixAt(path, q, |path|); }
    if LastSlash(path) == -1 {
      forall k | PrefixAt(path, q, k) ensures k == |path| {}
    } else {
      var init := path[..LastSlash(path)];
      if k :| PrefixAt(path, q, k) && k < |path| {
        assert init[..k] == path[..k];
        assert PrefixAt(init, q, k);
      }
      if k :| PrefixAt(init, q, k) {
        assert init[..k] == path[..k];
        assert PrefixAt(path, q, k);
      }
    }
  }

  // The loop passes through exactly the prefixes of the path.
  lemma {:induction false} PassedArePrefixes(path: string, q: string)
    ensures Passed(Split(path), q) <==> IsPrefix(path, q)
    decreases |path|
  {
    var parts := Split(path);
    ReachedPath(path);
    PassedStep(parts, q);
    PrefixStep(path, q);
    hide StripLeading, Reached, IsPrefix;
    if LastSlash(path) == -1 {
      assert parts[..|parts| - 1] == [];
    } else {
      var init := path[..LastSlash(path)];
      PassedArePrefixes(init, q);
      assert parts[..|parts| - 1] == Split(init);
      hide Passed, Split;
    }
  }

  lemma {:induction false} EnsureDirsAt(dirs: Dirs, owner: Owner, userId: UserId, parts: seq<string>, d: (Owner, string))
    requires Plain(parts)
    ensures var after := EnsureDirs(dirs, owner, userId, parts);
      && (d in after <==> d in dirs || (d.0 == owner && Passed(parts, d.1)))
      && (d in dirs ==> after[d] == dirs[d])
      && (d in after && d !in dirs ==> after[d] == DirRow(userId, LastPart(d.1), ParentOf(d.1)))
  {
    hide ParentOf, LastPart, Reached;
    if parts != [] {
      hide EnsureDirs, Passed;
      EnsureDirsAt(dirs, owner, userId, parts[..|parts| - 1], d);
      EnsureDirsSnoc(dirs, owner, userId, parts);
      PassedStep(parts, d.1);
    }
  }

  lemma EnsureDirsSnoc(dirs: Dirs, owner: Owner, userId: UserId, parts: seq<string>)
    requires Plain(parts) && parts != []
    ensures EnsureDirs(dirs, owner, userId, parts)
            == UpsertDir(EnsureDirs(dirs, owner, userId, parts[..|parts| - 1]), owner, Reached(parts),
                         DirRow(userId, LastPart(Reached(parts)), ParentOf(Reached(parts))))
  {
    ReachedStep(parts);
    hide ParentOf, LastPart, Reached, UpsertDir;
  }

  // The loop inserts exactly the missing paths it passes through, each pointing at its
  // parent and named by its last component; rows that were there stay as they were.
  lemma EnsureDirsEffect(dirs: Dirs, owner: Owner, userId: UserId, parts: seq<string>)
    requires Plain(parts)
    ensures var after := EnsureDirs(dirs, owner, userId, parts);
      && (forall d :: d in dirs ==> d in after && after[d] == dirs[d])
      && (forall d: (Owner, string) :: d in after <==> d in dirs || (d.0 == owner && Passed(parts, d.1)))
      && (forall d :: d in after && d !in dirs ==> after[d] == DirRow(userId, LastPart(d.1), ParentOf(d.1)))
  {
    hide EnsureDirs, Passed, ParentOf, LastPart;
    forall d {
      EnsureDirsAt(dirs, owner, userId, parts, d);
    }
  }

  lemma EnsureDirsOk(dirs: Dirs, owner: Owner, userId: UserId, parts: seq<string>)
    requires Plain(parts) && DirsOk(dirs)
    ensures DirsOk(EnsureDirs(dirs, owner, userId, parts))
  {
    EnsureDirsEffect(dirs, owner, userId, parts);
    hide EnsureDirs, Passed, ParentOf;
  }

  lemma SameDirs(a: Dirs, b: Dirs)
    requires forall d :: d in a <==> d in b
    requires forall d :: d in a ==> a[d] == b[d]
    ensures a == b
  {
  }

  // Running the loop again changes nothing.
  lemma EnsureDirsIdempotent(dirs: Dirs, owner: Owner, userId: UserId, again: UserId, parts: seq<string>)
    requires Plain(parts)
    ensures var after := EnsureDirs(dirs, owner, userId, parts); EnsureDirs(after, owner, again, parts) == after
  {
    var after := EnsureDirs(dirs, owner, userId, parts);
    EnsureDirsEffect(dirs, owner, userId, parts);
    EnsureDirsEffect(after, owner, again, parts);
    hide EnsureDirs, Passed, ParentOf, LastPart;
    SameDirs(after, EnsureDirs(after, owner, again, parts));
  }

  // ---- Directories: listings ----

  // `path` is one component below `dirPath`, the empty path being the root.
  ghost predicate OneBelow(path: string, dirPath: string) {
    exists name :: '/' !in name && path == if dirPath == "" then name else dirPath + "/" + name
  }

  // When parents agree with paths, a listing shows precisely the rows one component below.
  lemma ListingIsOneBelow(dirs: Dirs, owner: Owner, dirPath: string, path: string)
    requires DirsOk(dirs)
    ensures path in ListedDirs(dirs, owner, dirPath) <==> (owner, path) in dirs && OneBelow(path, dirPath)
  {
    var parent := if dirPath == "" then None else Some(dirPath);
    if path in ListedDirs(dirs, owner, dirPath) {
      assert (owner, path) in dirs && ParentOf(path) == parent;
      if dirPath != "" {
        assert path == dirPath + "/" + LastPart(path);
      }
      assert OneBelow(path, dirPath) by {
        assert '/' !in LastPart(path) && path == if dirPath == "" then LastPart(path) else dirPath + "/" + LastPart(path);
      }
    }
    if (owner, path) in dirs && OneBelow(path, dirPath) {
      var name :| '/' !in name && path == if dirPath == "" then name else dirPath + "/" + name;
      UnderParts(dirPath, name);
      assert dirs[(owner, path)].parent == parent;
    }
  }

  // Number of components of a path without leading slashes, and of listings needed.
  function Depth(path: string): (n: nat)
    ensures n > 0
    decreases |path|
  {
    match ParentOf(path)
    case None => 1
    case Some(parent) => 1 + Depth(parent)
  }

  lemma {:induction false} DepthIsComponents(path: string)
    ensures Depth(path) == |Split(path)|
    decreases |path|
  {
    if LastSlash(path) != -1 {
      DepthIsComponents(path[..LastSlash(path)]);
    }
  }

  // Listing the root and then one directory after another reaches `path` in n listings.
  ghost predicate ReachedByListings(dirs: Dirs, owner: Owner, path: string, n: nat)
    decreases n
  {
    if n == 0 then false
    else if n == 1 then path in ListedDirs(dirs, owner, "")
    else exists parent :: parent != "" && path in ListedDirs(dirs, owner, parent) && ReachedByListings(dirs, owner, parent, n - 1)
  }

  // One step of the chain: a row below a directory reached in n listings is reached in n + 1.
  lemma ReachedOneMore(dirs: Dirs, owner: Owner, parent: string, path: string, n: nat)
    requires n > 0 && parent != "" && (owner, path) in dirs && dirs[(owner, path)].parent == Some(parent)
    requires ReachedByListings(dirs, owner, parent, n)
    ensures ReachedByListings(dirs, owner, path, n + 1)
  {
    assert path in ListedDirs(dirs, owner, parent);
  }

  lemma ReachedAtRoot(dirs: Dirs, owner: Owner, path: string)
    requires (owner, path) in dirs && dirs[(owner, path)].parent == None
    ensures ReachedByListings(dirs, owner, path, 1)
  {
    assert path in ListedDirs(dirs, owner, "");
  }

  lemma EnsuredRow(dirs: Dirs, owner: Owner, userId: UserId, all: seq<string>, i: nat)
    requires Plain(all) && DirsOk(dirs) && 0 < i <= |all|
    ensures var after, path := EnsureDirs(dirs, owner, userId, all), Reached(all[..i]);
      (owner, path) in after && after[(owner, path)].parent == ParentOf(path)
  {
    EnsureDirsEffect(dirs, owner, userId, all);
    EnsureDirsOk(dirs, owner, userId, all);
    hide EnsureDirs, ParentOf, LastPart, Reached;
    assert Passed(all, Reached(all[..i]));
  }

  lemma {:induction false} ReachableAfterEnsure(dirs: Dirs, owner: Owner, userId: UserId, all: seq<string>, i: nat)
    requires Plain(all) && DirsOk(dirs) && 0 < i <= |all|
    ensures ReachedByListings(EnsureDirs(dirs, owner, userId, all), owner, Reached(all[..i]), Depth(Reached(all[..i])))
    decreases i
  {
    var after := EnsureDirs(dirs, owner, userId, all);
    var path := Reached(all[..i]);
    EnsuredRow(dirs, owner, userId, all, i);
    ReachedStep(all[..i]);
    assert all[..i][..i - 1] == all[..i - 1];
    var parent := Reached(all[..i - 1]);
    if i == 1 {
      assert all[..0] == [] && parent == "";
    }
    hide EnsureDirs, ReachedByListings, Reached, ParentOf;
    if parent == "" {
      ReachedAtRoot(after, owner, path);
    } else {
      ReachableAfterEnsure(dirs, owner, userId, all, i - 1);
      ReachedOneMore(after, owner, parent, path, Depth(parent));
    }
  }

  // After the loop, the target is reached from the root by one listing per component.
  lemma TargetReachable(dirs: Dirs, owner: Owner, userId: UserId, path: string)
    requires DirsOk(dirs)
    ensures var after := EnsureDirs(dirs, owner, userId, Split(path));
      var target := StripLeading(path);
      ReachedByListings(after, owner, target, |Split(target)|)
  {
    var parts := Split(path);
    SplitJoin(path);
    ReachedPath(path);
    assert parts[..|parts|] == parts;
    DepthIsComponents(StripLeading(path));
    hide EnsureDirs, ReachedByListings;
    ReachableAfterEnsure(dirs, owner, userId, parts, |parts|);
  }

  // ---- Files: the invariant ----

  // The part of a file name before its first dot.
  function Stem(name: string): string {
    if name == "" || name[0] == '.' then "" else [name[0]] + Stem(name[1..])
  }

  lemma {:induction false} StemOf(uuid: string, rest: string)
    requires '.' !in uuid && (rest == "" || rest[0] == '.')
    ensures Stem(uuid + rest) == uuid
  {
    if uuid == "" {
      assert uuid + rest == rest;
    } else {
      assert uuid[0] in uuid && forall c :: c in uuid[1..] ==> c in uuid;
      StemOf(uuid[1..], rest);
      assert (uuid + rest)[1..] == uuid[1..] + rest;
    }
  }

  // A key is its directory path joined to its base name, and `dir` is the last component
  // of that path.
  predicate RowOk(row: FileRow) {
    && row.key == Under(row.dirPath, LastPart(row.key))
    && LastPart(row.key) != ""
    && row.dir == LastPart(row.dirPath)
    && !LeadingSlash(row.key)
    && '/' !in row.ext
  }

  ghost predicate RowsOk(s: Storage) {
    forall id :: id in s.files ==> RowOk(s.files[id])
  }

  // File names differ before their first dot, deleted rows included.
  ghost predicate NamesDistinct(s: Storage) {
    forall a, b :: a in s.files && b in s.files && Stem(LastPart(s.files[a].key)) == Stem(LastPart(s.files[b].key)) ==> a == b
  }

  // Every active row has its object, with the content first stored under its id.
  ghost predicate RowsHaveObjects(s: Storage) {
    forall id :: id in s.files && s.files[id].active ==>
      && s.files[id].key in s.objects
      && id in s.origin && s.objects[s.files[id].key] == s.origin[id]
  }

  ghost predicate HasActiveRow(s: Storage, key: string) {
    exists id :: id in s.files && s.files[id].active && s.files[id].key == key
  }

  // Every file object has an active row; folder markers are the keys with a trailing slash.
  ghost predicate ObjectsHaveRows(s: Storage) {
    forall key :: key in s.objects && !TrailingSlash(key) ==> HasActiveRow(s, key)
  }

  ghost predicate Agree(s: Storage) {
    RowsHaveObjects(s) && ObjectsHaveRows(s)
  }

  ghost predicate Inv(s: Storage) {
    RowsOk(s) && NamesDistinct(s) && Agree(s) && DirsOk(s.dirs)
  }

  // ---- What the environment guarantees of a request ----

  predicate UuidOk(uuid: string) {
    uuid != "" && '/' !in uuid && '.' !in uuid
  }

  ghost predicate FreshFile(s: Storage, id: FileId, uuid: string) {
    && id !in s.files && UuidOk(uuid)
    && forall f :: f in s.files ==> Stem(LastPart(s.files[f].key)) != uuid
  }

  ghost predicate FreshUploads(s: Storage, us: seq<Upload>) {
    && (forall i :: 0 <= i < |us| ==> FreshFile(s, us[i].id, us[i].uuid) && '/' !in us[i].ext)
    && (forall i, j :: 0 <= i < j < |us| ==> us[i].id != us[j].id && us[i].uuid != us[j].uuid)
  }

  ghost predicate Enabled(s: Storage, req: Request) {
    match req
    case UploadFiles(_, email, _, org, files, _) =>
      && '@' in email && FreshUploads(s, files)
      && (org.Some? && org.value.ownerEmail.Some? ==> '@' in org.value.ownerEmail.value)
    case CopyFile(_, _, _, newId, uuid) => FreshFile(s, newId, uuid)
    case _ => true
  }

  // Targets have no leading slash, and a move leaves its directory.
  predicate Guarded(s: Storage, req: Request) {
    match req
    case MoveFile(_, fileId, target) => !LeadingSlash(target) && (fileId in s.files ==> target != s.files[fileId].dirPath)
    case CopyFile(_, _, target, _, _) => !LeadingSlash(target)
    case _ => true
  }

  // ---- Base names ----

  lemma BasenameOfKey(row: FileRow)
    requires RowOk(row)
    ensures Basename(row.key) == LastPart(row.key) && !TrailingSlash(row.key) && StripOne(row.key) == row.key
  {
    UnderParts(row.dirPath, LastPart(row.key));
  }

  // Two rows never share a key.
  lemma KeysDistinct(s: Storage, a: FileId, b: FileId)
    requires NamesDistinct(s) && a in s.files && b in s.files && s.files[a].key == s.files[b].key
    ensures a == b
  {
  }

  // A stored file object belongs to the row with that key, which is active.
  lemma StoredMeansActive(s: Storage, id: FileId)
    requires Inv(s) && id in s.files && s.files[id].key in s.objects
    ensures s.files[id].active
  {
    assert RowOk(s.files[id]);
    BasenameOfKey(s.files[id]);
    hide Stem, LastPart, RowOk, TrailingSlash, DirsOk, RowsHaveObjects;
    assert HasActiveRow(s, s.files[id].key);
  }

  // ---- Adding a row with a fresh name ----

  lemma AddRow(s: Storage, t: Storage, id: FileId, row: FileRow, content: Content, stem: string)
    requires Inv(s) && FreshFile(s, id, stem) && RowOk(row) && row.active && Stem(LastPart(row.key)) == stem
    requires t == s.(files := s.files[id := row], objects := s.objects[row.key := content], origin := s.origin[id := content])
    ensures Inv(t)
  {
    hide DirsOk, RowOk, TrailingSlash, Stem, LastPart, HasActiveRow;
    AddedHaveObjects(s, t, id, row, content, stem);
    AddedHaveRows(s, t, id, row);
    hide RowsHaveObjects, ObjectsHaveRows;
    assert NamesDistinct(t);
  }

  lemma AddedHaveObjects(s: Storage, t: Storage, id: FileId, row: FileRow, content: Content, stem: string)
    requires RowsHaveObjects(s) && FreshFile(s, id, stem) && Stem(LastPart(row.key)) == stem
    requires t == s.(files := s.files[id := row], objects := s.objects[row.key := content], origin := s.origin[id := content])
    ensures RowsHaveObjects(t)
  {
    hide Stem, LastPart, UuidOk;
    forall a | a in s.files ensures s.files[a].key != row.key {
      assert Stem(LastPart(s.files[a].key)) != stem;
    }
  }

  lemma AddedHaveRows(s: Storage, t: Storage, id: FileId, row: FileRow)
    requires ObjectsHaveRows(s) && id !in s.files && row.active && row.key in t.objects
    requires t.files == s.files[id := row] && t.objects == s.objects[row.key := t.objects[row.key]]
    ensures ObjectsHaveRows(t)
  {
    hide TrailingSlash;
    assert t.files[id].active && t.files[id].key == row.key;
    forall key | key in t.objects && !TrailingSlash(key) ensures HasActiveRow(t, key) {
      if key != row.key {
        assert HasActiveRow(s, key);
        var a :| a in s.files && s.files[a].active && s.files[a].key == key;
        assert t.files[a].key == key && t.files[a].active;
      }
    }
  }

  lemma NewRowOk(dirPath: string, name: string, row: FileRow)
    requires '/' !in name && name != "" && !LeadingSlash(dirPath) && '/' !in row.ext
    requires row.key == Under(dirPath, name) && row.dirPath == dirPath && row.dir == LastPart(dirPath)
    ensures RowOk(row) && LastPart(row.key) == name
  {
    UnderParts(dirPath, name);
    UnderLeading(dirPath, name);
  }

  lemma StoreOneInv(s: Storage, owner: Owner, userId: UserId, dirPath: string, u: Upload)
    requires Inv(s) && FreshFile(s, u.id, u.uuid) && '/' !in u.ext && dirPath != "" && !LeadingSlash(dirPath)
    ensures Inv(StoreOne(s, owner, userId, dirPath, u))
  {
    var name := u.uuid + "." + u.ext;
    assert u.uuid + ("." + u.ext) == name;
    StemOf(u.uuid, "." + u.ext);
    var t := StoreOne(s, owner, userId, dirPath, u);
    var row := t.files[u.id];
    assert row.key == Under(dirPath, name);
    NewRowOk(dirPath, name, row);
    hide Inv, FreshFile, Stem, LastPart, Under, RowOk;
    AddRow(s, t, u.id, row, u.content, u.uuid);
  }

  lemma NewStem(dirPath: string, u: Upload)
    requires UuidOk(u.uuid) && '/' !in u.ext
    ensures Stem(LastPart(NewKey(dirPath, u))) == u.uuid
  {
    var name := u.uuid + "." + u.ext;
    assert u.uuid + ("." + u.ext) == name;
    StemOf(u.uuid, "." + u.ext);
    LastSlashOf(dirPath, name);
  }

  // Another fresh name stays fresh.
  lemma StoreOneFresh(s: Storage, owner: Owner, userId: UserId, dirPath: string, u: Upload, v: Upload)
    requires UuidOk(u.uuid) && '/' !in u.ext && FreshFile(s, v.id, v.uuid) && u.id != v.id && u.uuid != v.uuid
    ensures FreshFile(StoreOne(s, owner, userId, dirPath, u), v.id, v.uuid)
  {
    hide Stem, LastPart, NewKey, UuidOk;
    NewStem(dirPath, u);
  }

  lemma {:induction false} StoreAllFresh(s: Storage, owner: Owner, userId: UserId, dirPath: string, us: seq<Upload>, v: Upload)
    requires FreshFile(s, v.id, v.uuid)
    requires forall i :: 0 <= i < |us| ==> UuidOk(us[i].uuid) && '/' !in us[i].ext && us[i].id != v.id && us[i].uuid != v.uuid
    ensures FreshFile(StoreAll(s, owner, userId, dirPath, us), v.id, v.uuid)
  {
    hide FreshFile, StoreOne;
    if us != [] {
      var init := us[..|us| - 1];
      StoreAllFresh(s, owner, userId, dirPath, init, v);
      StoreOneFresh(StoreAll(s, owner, userId, dirPath, init), owner, userId, dirPath, us[|us| - 1], v);
    }
  }

  lemma {:induction false} StoreAllInv(s: Storage, owner: Owner, userId: UserId, dirPath: string, us: seq<Upload>)
    requires Inv(s) && FreshUploads(s, us) && dirPath != "" && !LeadingSlash(dirPath)
    ensures Inv(StoreAll(s, owner, userId, dirPath, us))
  {
    if us != [] {
      var init, last := us[..|us| - 1], us[|us| - 1];
      hide Inv, Stem, LastPart, LeadingSlash, StoreOne;
      StoreAllInv(s, owner, userId, dirPath, init);
      StoreAllFresh(s, owner, userId, dirPath, init, last);
      StoreOneInv(StoreAll(s, owner, userId, dirPath, init), owner, userId, dirPath, last);
    }
  }

  // ---- Every endpoint keeps the invariant ----

  lemma MoveObject(s: Storage, t: Storage, id: FileId, row: FileRow)
    requires Inv(s) && id in s.files && s.files[id].active && row.active && RowOk(row)
    requires row.key != s.files[id].key && LastPart(row.key) == LastPart(s.files[id].key)
    requires s.files[id].key in s.objects
    requires t == s.(files := s.files[id := row],
                     objects := s.objects[row.key := s.objects[s.files[id].key]] - {s.files[id].key})
    ensures Inv(t)
  {
    hide DirsOk, RowOk, TrailingSlash, Stem, LastPart;
    var oldKey := s.files[id].key;
    assert RowsHaveObjects(t) by {
      forall a | a in t.files && t.files[a].active && a != id ensures t.files[a].key != row.key && t.files[a].key != oldKey {
        assert s.files[a].key == t.files[a].key;
      }
    }
    assert ObjectsHaveRows(t) by {
      assert t.files[id].active && t.files[id].key == row.key;
      forall key | key in t.objects && !TrailingSlash(key) ensures HasActiveRow(t, key) {
        if key != row.key {
          assert HasActiveRow(s, key);
          var a :| a in s.files && s.files[a].active && s.files[a].key == key;
          assert t.files[a].key == key && t.files[a].active;
        }
      }
    }
  }

  lemma MoveInv(s: Storage, owner: Owner, fileId: FileId, target: string)
    requires Inv(s) && Guarded(s, MoveFile(owner, fileId, target))
    ensures Inv(MoveFileStep(s, owner, fileId, target).state)
  {
    if fileId in s.files && s.files[fileId].owner == owner {
      var row := s.files[fileId];
      assert RowOk(row);
      BasenameOfKey(row);
      var name := LastPart(row.key);
      var newRow := row.(key := Under(target, name), dirPath := target, dir := LastPart(target));
      NewRowOk(target, name, newRow);
      if newRow.key == row.key { UnderInjective(target, row.dirPath, name); }
      hide LastPart, Under, Basename, DirsOk, Stem, RowOk, NamesDistinct, Agree;
      if row.key in s.objects {
        StoredMeansActive(s, fileId);
        MoveObject(s, MoveFileStep(s, owner, fileId, target).state, fileId, newRow);
      }
    }
  }

  // A stored object is the one its row was filed with.
  lemma SourceOfCopy(s: Storage, fileId: FileId)
    requires Inv(s) && fileId in s.files
    ensures var row := s.files[fileId];
      && StripOne(row.key) == row.key && '/' !in row.ext
      && (row.key in s.objects ==> row.active && fileId in s.origin && s.objects[row.key] == s.origin[fileId])
  {
    assert RowOk(s.files[fileId]);
    BasenameOfKey(s.files[fileId]);
    if s.files[fileId].key in s.objects {
      StoredMeansActive(s, fileId);
    }
    hide DirsOk, Stem, LastPart, Basename;
  }

  lemma CopiedRowOk(row: FileRow, target: string, uuid: string, copy: FileRow)
    requires UuidOk(uuid) && '/' !in row.ext && !LeadingSlash(target)
    requires copy == row.(key := Under(target, CopyName(row, uuid)), dirPath := target, dir := LastPart(target), active := true)
    ensures RowOk(copy) && Stem(LastPart(copy.key)) == uuid && StripOne(copy.key) == copy.key
  {
    CopyNameOk(row, uuid);
    hide CopyName, Stem;
    NewRowOk(target, CopyName(row, uuid), copy);
  }

  lemma CopyStepIs(s: Storage, owner: Owner, fileId: FileId, target: string, newId: FileId, uuid: string, copy: FileRow)
    requires fileId in s.files && StripOne(s.files[fileId].key) == s.files[fileId].key && StripOne(copy.key) == copy.key
    requires copy == s.files[fileId].(key := Under(target, CopyName(s.files[fileId], uuid)), dirPath := target,
                                      dir := LastPart(target), active := true)
    requires s.files[fileId].key in s.objects ==> fileId in s.origin
    ensures var row := s.files[fileId];
      CopyFileStep(s, owner, fileId, target, newId, uuid).state
        == if row.owner == owner && row.key in s.objects
           then s.(files := s.files[newId := copy], objects := s.objects[copy.key := s.objects[row.key]],
                   origin := s.origin[newId := s.origin[fileId]])
           else s
  {
    hide LastPart, Under, CopyName, StripOne;
  }

  lemma CopyInv(s: Storage, owner: Owner, fileId: FileId, target: string, newId: FileId, uuid: string)
    requires Inv(s) && !LeadingSlash(target) && FreshFile(s, newId, uuid)
    ensures Inv(CopyFileStep(s, owner, fileId, target, newId, uuid).state)
  {
    if fileId in s.files {
      var row := s.files[fileId];
      hide LastPart, Under, Stem, RowOk, Inv, CopyName, StripOne;
      SourceOfCopy(s, fileId);
      var copy := row.(key := Under(target, CopyName(row, uuid)), dirPath := target, dir := LastPart(target), active := true);
      CopiedRowOk(row, target, uuid, copy);
      hide FreshFile;
      CopyStepIs(s, owner, fileId, target, newId, uuid, copy);
      hide CopyFileStep;
      if row.owner == owner && row.key in s.objects {
        AddRow(s, CopyFileStep(s, owner, fileId, target, newId, uuid).state, newId, copy, s.origin[fileId], uuid);
      }
    }
  }

  lemma CopyNameOk(row: FileRow, uuid: string)
    requires UuidOk(uuid) && '/' !in row.ext
    ensures var name := CopyName(row, uuid); '/' !in name && name != "" && Stem(name) == uuid
  {
    var rest := if row.ext == "" then "" else "." + row.ext;
    StemOf(uuid, rest);
  }

  lemma DropRow(s: Storage, t: Storage, id: FileId, row: FileRow)
    requires Inv(s) && id in s.files && row == s.files[id].(active := false)
    requires t == s.(files := s.files[id := row], objects := s.objects - {row.key})
    ensures RowsOk(t) && NamesDistinct(t) && RowsHaveObjects(t) && ObjectsHaveRows(t)
  {
    hide DirsOk, RowOk, TrailingSlash, Stem, LastPart;
    assert RowOk(row) by { assert RowOk(s.files[id]); DroppedRowOk(s.files[id], row); }
    assert RowsHaveObjects(t) by {
      forall a | a in t.files && t.files[a].active ensures t.files[a].key != row.key {
        if s.files[a].key == row.key { KeysDistinct(s, a, id); }
      }
    }
    assert ObjectsHaveRows(t) by {
      forall key | key in t.objects && !TrailingSlash(key) ensures HasActiveRow(t, key) {
        assert HasActiveRow(s, key);
        var a :| a in s.files && s.files[a].active && s.files[a].key == key;
        assert t.files[a].key == key && t.files[a].active;
      }
    }
  }

  lemma DroppedRowOk(row: FileRow, dropped: FileRow)
    requires RowOk(row) && dropped == row.(active := false)
    ensures RowOk(dropped)
  {
  }

  lemma DeleteInv(s: Storage, owner: Owner, fileId: FileId)
    requires Inv(s)
    ensures Inv(DeleteFileStep(s, owner, fileId).state)
  {
    if fileId in s.files && s.files[fileId].owner == owner {
      DropRow(s, DeleteFileStep(s, owner, fileId).state, fileId, s.files[fileId].(active := false));
      hide RowsOk, NamesDistinct, RowsHaveObjects, ObjectsHaveRows;
    }
  }

  lemma FolderKeyShape(path: string)
    ensures TrailingSlash(FolderKey(path))
  {
  }

  // Folder markers and directory rows do not touch the agreement.
  lemma MarkersInv(s: Storage, path: string, dirs: Dirs)
    requires Inv(s) && DirsOk(dirs)
    ensures Inv(s.(objects := PutFolder(s.objects, path), dirs := dirs))
  {
    var t := s.(objects := PutFolder(s.objects, path), dirs := dirs);
    FolderKeyShape(path);
    hide DirsOk, TrailingSlash, FolderKey, Stem, LastPart, RowOk;
    forall id | id in s.files ensures s.files[id].key != FolderKey(path) {
      BasenameOfKey(s.files[id]);
    }
    forall key ensures HasActiveRow(t, key) == HasActiveRow(s, key) {}
    hide HasActiveRow;
  }

  lemma CreateDirectoryInv(s: Storage, owner: Owner, userId: UserId, name: string, parentPath: Option<string>)
    requires Inv(s)
    ensures Inv(CreateDirectoryStep(s, owner, userId, name, parentPath).state)
  {
    var parent := if parentPath.Some? then parentPath.value else "";
    SlugShape(name);
    var path := Under(parent, Slugify(name));
    UnderParent(parent, Slugify(name), path);
    var row := DirRow(userId, name, if parent == "" then None else Some(parent));
    assert DirOk(path, row);
    hide RowsOk, NamesDistinct, Agree, Under, Slugify, DirOk, PutFolder;
    if (owner, path) !in s.dirs {
      NewDirOk(s.dirs, owner, path, row);
      MarkersInv(s, path, s.dirs[(owner, path) := row]);
    }
  }

  lemma NewDirOk(dirs: Dirs, owner: Owner, path: string, row: DirRow)
    requires DirsOk(dirs) && DirOk(path, row)
    ensures DirsOk(dirs[(owner, path) := row])
  {
    hide DirOk;
  }

  lemma StoreUnderInv(s: Storage, owner: Owner, userId: UserId, rootPath: string, files: seq<Upload>, extraDir: Option<string>)
    requires Inv(s) && FreshUploads(s, files) && rootPath != "" && !LeadingSlash(rootPath)
    ensures Inv(StoreUnder(s, owner, userId, rootPath, files, extraDir))
  {
    var dirPath := if extraDir.Some? && extraDir.value != "" then rootPath + "/" + extraDir.value else rootPath;
    assert dirPath[0] == rootPath[0];
    hide Inv, FreshUploads, EnsureDirs, Split;
    EnsuredInv(s, owner, userId, dirPath, files);
    StoreAllInv(s.(dirs := EnsureDirs(s.dirs, owner, userId, Split(dirPath))), owner, userId, dirPath, files);
  }

  lemma EnsuredInv(s: Storage, owner: Owner, userId: UserId, dirPath: string, files: seq<Upload>)
    requires Inv(s) && FreshUploads(s, files)
    ensures var t := s.(dirs := EnsureDirs(s.dirs, owner, userId, Split(dirPath)));
      Inv(t) && FreshUploads(t, files)
  {
    hide EnsureDirs, Split, DirsOk, RowsOk, NamesDistinct, Agree, Stem, LastPart;
    SplitJoin(dirPath);
    EnsureDirsOk(s.dirs, owner, userId, Split(dirPath));
    SameFilesInv(s, s.(dirs := EnsureDirs(s.dirs, owner, userId, Split(dirPath))));
  }

  lemma SameFilesInv(s: Storage, t: Storage)
    requires Inv(s) && DirsOk(t.dirs) && t.files == s.files && t.objects == s.objects && t.origin == s.origin
    ensures Inv(t)
  {
    hide DirsOk, Stem, LastPart, TrailingSlash, RowOk;
    forall key ensures HasActiveRow(t, key) == HasActiveRow(s, key) {}
    hide HasActiveRow;
  }

  lemma UploadInv(s: Storage, userId: UserId, email: string, orgId: Option<string>, org: Option<OrgInfo>,
                  files: seq<Upload>, extraDir: Option<string>)
    requires Inv(s) && Enabled(s, UploadFiles(userId, email, orgId, org, files, extraDir))
    ensures Inv(UploadFilesStep(s, userId, email, orgId, org, files, extraDir).state)
  {
    SlugShape(email);
    hide Inv, Slugify, StoreUnder, PutFolder, FreshUploads;
    var s1 := s.(objects := PutFolder(s.objects, Slugify(email)));
    MarkerInv(s, Slugify(email), files);
    if orgId.None? || orgId.value == "" {
      StoreUnderInv(s1, userId, userId, Slugify(email), files, extraDir);
    } else if org.Some? {
      var ownerSlug, orgPath := OwnerSlug(email, org.value), OrgPath(email, org.value);
      OrgPathShape(email, org.value);
      hide OwnerSlug, OrgPath;
      var s2 := s1.(objects := PutFolder(s1.objects, ownerSlug));
      MarkerInv(s1, ownerSlug, files);
      MarkerInv(s2, orgPath, files);
      StoreUnderInv(s2.(objects := PutFolder(s2.objects, orgPath)), orgId.value, userId, orgPath, files, extraDir);
    }
  }

  lemma MarkerInv(s: Storage, path: string, files: seq<Upload>)
    requires Inv(s) && FreshUploads(s, files)
    ensures Inv(s.(objects := PutFolder(s.objects, path)))
    ensures FreshUploads(s.(objects := PutFolder(s.objects, path)), files)
  {
    hide DirsOk, Stem, LastPart, RowsOk, NamesDistinct, Agree, PutFolder;
    MarkersInv(s, path, s.dirs);
  }

  lemma OrgPathShape(email: string, org: OrgInfo)
    requires '@' in email && (org.ownerEmail.Some? ==> '@' in org.ownerEmail.value)
    ensures OrgPath(email, org) != "" && !LeadingSlash(OrgPath(email, org))
  {
    SlugShape(if org.ownerEmail.Some? then org.ownerEmail.value else email);
    assert OrgPath(email, org)[0] == OwnerSlug(email, org)[0];
  }

  lemma StepInv(s: Storage, req: Request)
    requires Inv(s) && Enabled(s, req) && Guarded(s, req)
    ensures Inv(Step(s, req).state)
  {
    hide UploadFilesStep, MoveFileStep, CopyFileStep, DeleteFileStep, CreateDirectoryStep;
    match req {
      case UploadFiles(userId, email, orgId, org, files, extraDir) => hide Inv; UploadInv(s, userId, email, orgId, org, files, extraDir);
      case MoveFile(owner, fileId, target) => hide Inv; MoveInv(s, owner, fileId, target);
      case CopyFile(owner, fileId, target, newId, uuid) => hide Inv; CopyInv(s, owner, fileId, target, newId, uuid);
      case DeleteFile(owner, fileId) => hide Inv; DeleteInv(s, owner, fileId);
      case CreateDirectory(owner, userId, name, parentPath) => hide Inv; CreateDirectoryInv(s, owner, userId, name, parentPath);
      case DeleteDirectory(owner, path) => SameFilesInv(s, Step(s, req).state); hide Inv;
    }
  }

  // ---- Runs ----

  datatype Run = Run(states: seq<Storage>, reqs: seq<Request>)

  const Empty: Storage := Storage(map[], map[], map[], map[])

  ghost predicate StepAt(r: Run, i: nat)
    requires |r.states| == |r.reqs| + 1 && i < |r.reqs|
  {
    && Enabled(r.states[i], r.reqs[i]) && Guarded(r.states[i], r.reqs[i])
    && r.states[i + 1] == Step(r.states[i], r.reqs[i]).state
  }

  ghost predicate IsRun(r: Run) {
    && |r.states| == |r.reqs| + 1
    && r.states[0] == Empty
    && forall i :: 0 <= i < |r.reqs| ==> StepAt(r, i)
  }

  ghost function Extend(r: Run, req: Request): Run
    requires |r.states| > 0
  {
    Run(r.states + [Step(r.states[|r.states| - 1], req).state], r.reqs + [req])
  }

  lemma ExtendRun(r: Run, req: Request)
    requires IsRun(r) && Enabled(r.states[|r.reqs|], req) && Guarded(r.states[|r.reqs|], req)
    ensures IsRun(Extend(r, req))
  {
    hide Step, Enabled, Guarded;
    var e := Extend(r, req);
    forall i | 0 <= i < |e.reqs| ensures StepAt(e, i) {
      if i < |r.reqs| {
        assert StepAt(r, i);
      }
    }
  }

  lemma {:induction false} ReachableInv(r: Run, i: nat)
    requires IsRun(r) && i < |r.states|
    ensures Inv(r.states[i])
  {
    hide Inv, Step, Enabled, Guarded;
    if i == 0 {
      EmptyInv();
    } else {
      ReachableInv(r, i - 1);
      assert StepAt(r, i - 1);
      StepInv(r.states[i - 1], r.reqs[i - 1]);
    }
  }

  lemma EmptyInv()
    ensures Inv(Empty)
  {
    hide RowOk, Stem, LastPart, TrailingSlash;
  }

  // In every reachable state active rows and file objects correspond one to one: every
  // active row has its object, holding what was first stored for it; every file object
  // has exactly one active row; rows never share a base name.
  lemma StorageAgreement(r: Run, i: nat)
    requires IsRun(r) && i < |r.states|
    ensures var s := r.states[i];
      && (forall id :: id in s.files && s.files[id].active ==>
            s.files[id].key in s.objects && id in s.origin && s.objects[s.files[id].key] == s.origin[id])
      && (forall key :: key in s.objects && !TrailingSlash(key) ==> HasActiveRow(s, key))
      && (forall a, b :: a in s.files && b in s.files && Basename(s.files[a].key) == Basename(s.files[b].key) ==> a == b)
      && (forall id :: id in s.files ==>
            && !TrailingSlash(s.files[id].key)
            && s.files[id].key == Under(s.files[id].dirPath, Basename(s.files[id].key))
            && s.files[id].dir == LastPart(s.files[id].dirPath))
  {
    ReachableInv(r, i);
    var s := r.states[i];
    hide IsRun;
    forall id | id in s.files ensures RowOk(s.files[id]) && Basename(s.files[id].key) == LastPart(s.files[id].key) && !TrailingSlash(s.files[id].key) {
      BasenameOfKey(s.files[id]);
    }
    hide Basename, LastPart, Stem, TrailingSlash, Under, DirsOk, LeadingSlash;
  }

  // What is recorded as first stored under an id never changes, and a copy is recorded
  // with the content of its source.
  lemma OriginStays(s: Storage, req: Request, id: FileId)
    requires Enabled(s, req) && id in s.files && id in s.origin
    ensures id in Step(s, req).state.origin && Step(s, req).state.origin[id] == s.origin[id]
  {
    if req.UploadFiles? {
      UploadOrigin(s, req, id);
    }
  }

  lemma {:induction false} StoreAllOrigin(s: Storage, owner: Owner, userId: UserId, dirPath: string, us: seq<Upload>, id: FileId)
    requires id in s.origin && forall i :: 0 <= i < |us| ==> us[i].id != id
    ensures var t := StoreAll(s, owner, userId, dirPath, us); id in t.origin && t.origin[id] == s.origin[id]
  {
    if us != [] {
      hide NewKey, LastPart;
      StoreAllOrigin(s, owner, userId, dirPath, us[..|us| - 1], id);
    }
  }

  lemma UploadOrigin(s: Storage, req: Request, id: FileId)
    requires req.UploadFiles? && id in s.files && id in s.origin
    requires forall i :: 0 <= i < |req.files| ==> req.files[i].id != id
    ensures var t := UploadFilesStep(s, req.userId, req.email, req.orgId, req.org, req.files, req.extraDir).state;
      id in t.origin && t.origin[id] == s.origin[id]
  {
    hide EnsureDirs, Slugify, Split, LastPart;
    forall s1: Storage, owner, dirPath | s1.origin == s.origin
      ensures var t := StoreAll(s1, owner, req.userId, dirPath, req.files); id in t.origin && t.origin[id] == s.origin[id]
    {
      StoreAllOrigin(s1, owner, req.userId, dirPath, req.files, id);
    }
  }

  lemma CopyHasSourceOrigin(s: Storage, owner: Owner, fileId: FileId, target: string, newId: FileId, uuid: string)
    requires Inv(s) && CopyFileStep(s, owner, fileId, target, newId, uuid).Success?
    ensures var t := CopyFileStep(s, owner, fileId, target, newId, uuid).state;
      fileId in s.origin && t.origin[newId] == s.origin[fileId]
  {
    BasenameOfKey(s.files[fileId]);
    StoredMeansActive(s, fileId);
    assert RowsHaveObjects(s);
    hide Under, LastPart, Stem, Basename;
  }

  // In every reachable state a listing shows precisely the directories one component below.
  lemma DirectoryIndexAgreement(r: Run, i: nat, owner: Owner, dirPath: string, path: string)
    requires IsRun(r) && i < |r.states|
    ensures forall d :: d in r.states[i].dirs ==> r.states[i].dirs[d].parent == ParentOf(d.1)
    ensures path in ListedDirs(r.states[i].dirs, owner, dirPath)
            <==> (owner, path) in r.states[i].dirs && OneBelow(path, dirPath)
  {
    ReachableInv(r, i);
    hide RowsOk, NamesDistinct, Agree, IsRun;
    ListingIsOneBelow(r.states[i].dirs, owner, dirPath, path);
  }

  // ---- Exactly when a move or a copy keeps the agreement ----

  // Moving an active file keeps rows and objects in agreement if and only if the target
  // has no leading slash and is not the directory the file is in.
  lemma MoveExact(s: Storage, owner: Owner, fileId: FileId, target: string)
    requires Inv(s) && fileId in s.files && s.files[fileId].owner == owner && s.files[fileId].active
    ensures Agree(MoveFileStep(s, owner, fileId, target).state)
            <==> !LeadingSlash(target) && target != s.files[fileId].dirPath
  {
    var row := s.files[fileId];
    var name := LastPart(row.key);
    assert RowOk(row) && row.key in s.objects;
    BasenameOfKey(row);
    UnderLeading(target, name);
    UnderParts(target, name);
    var newKey := Under(target, name);
    var t := MoveFileStep(s, owner, fileId, target).state;
    if !LeadingSlash(target) && target != row.dirPath {
      MoveInv(s, owner, fileId, target);
    } else if !LeadingSlash(target) {
      assert newKey == row.key && StripOne(newKey) == newKey;
      hide LastPart, Stem, Under, Basename, StripOne;
      assert t.files[fileId].active && t.files[fileId].key !in t.objects;
    } else {
      NoLeadingObject(s, newKey);
      assert StripOne(newKey) != newKey by { assert |StripOne(newKey)| < |newKey|; }
      hide LastPart, Stem, Under, Basename, StripOne;
      assert t.files[fileId].active && t.files[fileId].key !in t.objects;
    }
  }

  // No file object's key starts with a slash.
  lemma NoLeadingObject(s: Storage, key: string)
    requires Inv(s) && LeadingSlash(key) && !TrailingSlash(key)
    ensures key !in s.objects
  {
    forall id | id in s.files ensures s.files[id].key != key {
      assert RowOk(s.files[id]);
    }
    assert !HasActiveRow(s, key);
  }

  // Copying an active file keeps the agreement if and only if the target has no leading
  // slash.
  lemma CopyExact(s: Storage, owner: Owner, fileId: FileId, target: string, newId: FileId, uuid: string)
    requires Inv(s) && fileId in s.files && s.files[fileId].owner == owner && s.files[fileId].active
    requires FreshFile(s, newId, uuid)
    ensures Agree(CopyFileStep(s, owner, fileId, target, newId, uuid).state) <==> !LeadingSlash(target)
  {
    var row := s.files[fileId];
    assert RowOk(row) && row.key in s.objects;
    BasenameOfKey(row);
    var name := CopyName(row, uuid);
    CopyNameOk(row, uuid);
    UnderLeading(target, name);
    UnderParts(target, name);
    var newKey := Under(target, name);
    var t := CopyFileStep(s, owner, fileId, target, newId, uuid).state;
    if !LeadingSlash(target) {
      CopyInv(s, owner, fileId, target, newId, uuid);
    } else {
      NoLeadingObject(s, newKey);
      assert StripOne(newKey) != newKey by { assert |StripOne(newKey)| < |newKey|; }
      hide LastPart, Stem, Under, Basename, StripOne, CopyName;
      assert t.files[newId].active && t.files[newId].key !in t.objects;
    }
  }

  // ---- Concrete inputs for which they do not ----

  const ExampleRow: FileRow := FileRow("o", "u", "n", "d/f.t", "d", "d", 1, "t", Other, true)

  // One file, stored under d/f.t.
  const Example: Storage := Storage(map["i" := ExampleRow], map[], map["d/f.t" := "c"], map["i" := "c"])

  lemma ExampleRowOk()
    ensures RowOk(ExampleRow)
  {
    assert "d/f.t" == "d" + "/" + "f.t";
    LastSlashOf("d", "f.t");
    assert LastPart("d") == "d";
  }

  lemma ExampleInv()
    ensures Inv(Example)
  {
    ExampleRowOk();
    hide RowOk, Stem, LastPart, TrailingSlash;
    assert HasActiveRow(Example, "d/f.t") by { assert Example.files["i"].key == "d/f.t"; }
  }

  // Moved to the directory it is in, the file loses its object; moved to a target with a
  // leading slash, row and object go different ways.
  lemma MoveFails()
    ensures !Agree(MoveFileStep(Example, "o", "i", "d").state)
    ensures !Agree(MoveFileStep(Example, "o", "i", "/e").state)
  {
    ExampleInv();
    hide Inv, Agree, MoveFileStep;
    MoveExact(Example, "o", "i", "d");
    MoveExact(Example, "o", "i", "/e");
  }

  lemma ExampleStem()
    ensures Stem(LastPart(ExampleRow.key)) == "f"
  {
    assert "d/f.t" == "d" + "/" + "f.t" && "f.t" == "f" + ".t";
    LastSlashOf("d", "f.t");
    StemOf("f", ".t");
  }

  // So do they after a copy to a target with a leading slash.
  lemma CopyFails()
    ensures !Agree(CopyFileStep(Example, "o", "i", "/e", "j", "g").state)
  {
    ExampleInv();
    ExampleStem();
    hide Inv, Agree, CopyFileStep, Stem, LastPart;
    assert FreshFile(Example, "j", "g");
    CopyExact(Example, "o", "i", "/e", "j", "g");
  }
}
