// What a replacement leaves and returns: ReplaceIdentity of internal/identity/store.go, field by field.
module IdentityReplaced {
  import opened Wrappers
  import opened Text
  import opened Naming
  import opened StoredHandles
  import opened StoredHandleInput
  import opened IdentityIndex
  import opened IdentityIntegrity
  import opened IdentityReplacement
  import opened IdentityLoad
  import opened IdentityRoundTrip

  // The details of a replacement: the unique id is new, the creation time stays, and every other field is the
  // one of the input, or the current one where the input has none. The handles are stored in normal form.
  ghost predicate Replaces(saved: Details, input: Details, current: Details, now: string, didDomain: Option<string>) {
    && saved.uniqueID == input.uniqueID
    && saved.userID == (if TrimSpace(input.userID) != "" then input.userID else current.userID)
    && saved.displayName == (if TrimSpace(input.displayName) != "" then input.displayName else current.displayName)
    && saved.createdAt == (if current.createdAt == "" then now else current.createdAt)
    && (saved.handle, saved.fullHandle) == StoredFields(
      if TrimSpace(input.handle) != "" then input.handle else current.handle,
      if TrimSpace(input.fullHandle) != "" then input.fullHandle else current.fullHandle, didDomain)
  }

  // A replacement that succeeds returns what it has saved, under the name it was found by, with the handle
  // fields normalised again. The new directory holds the identity file with these details and the files of
  // the input, the end-to-end state is gone from it, and every entry that had the old DID or directory shows
  // them; only handle fields can differ, and none does when those that were saved fit.
  lemma ReplaceThenLoad(d: Disk, name: string, input: SaveInput, now: string, domainOf: string -> Option<string>,
                        budget: nat) returns (saved: Details)
    requires Kept(d) && Replacing(d, name, input, now, domainOf, budget).result.Ok?
    ensures var out := Replacing(d, name, input, now, domainOf, budget);
      var n := if name in d.index.credentials then name else d.index.defaultName;
      var domain := domainOf(input.did);
      && n in d.index.credentials && Read(d, n, domainOf).Ok?
      && Replaces(saved, input.details, Read(d, n, domainOf).value.details, now, domain)
      && PreferredDirName(input.details.uniqueID) == Some(out.result.value.dirName)
      && out.result.value == Stored(n, out.result.value.dirName, input.did, Twice(saved, domain),
                                    d.index.defaultName == n)
      && IsReplaced(d, n, out.disk, out.result.value.dirName, input, saved)
      && (Twice(saved, domain) == saved ==>
            IsExact(d, n, out.disk, out.result.value.dirName, saved))
  {
    hide Do, Normalize, Read, After, LoadWrites, ReplaceWrites, WithStoredHandles, Kept, IsReplaced, IsExact,
      Replaces, Refreshed, PreferredDirName, Incomplete, ReplaceTarget, Replacing, ReplaceLoads, DirectoryWrites,
      IsMoved, Admitted;
    KeptIsNormal(d);
    var t, worked, left := Succeeded(d, name, input, now, domainOf, budget);
    saved := t.details;
    PlacedDetails(d, name, input, now, domainOf);
    MovedIsRead(worked, d.index, t, domainOf);
    LoadRefreshes(worked, t.name, domainOf, left);
    RefreshedReplacement(d, worked, After(worked, LoadWrites(worked, t.name, domainOf), left), t, input);
    if Twice(saved, domainOf(input.did)) == saved {
      MovedIsQuiet(worked, d.index, t, domainOf);
      NothingAfter(worked, LoadWrites(worked, t.name, domainOf), left);
      MovedIsExact(d, worked, t);
    }
  }

  // What is on disk before the last load of a replacement that succeeds.
  lemma Succeeded(d: Disk, name: string, input: SaveInput, now: string, domainOf: string -> Option<string>,
                  budget: nat) returns (t: Replacement, worked: Disk, left: nat)
    requires Normalize(d.index) == d.index && Replacing(d, name, input, now, domainOf, budget).result.Ok?
    ensures ReplaceTarget(d, name, input, now, domainOf) == Ok(t)
    ensures t.name in d.index.credentials && t.linked == Linked(d.index, d.index.credentials[t.name])
    ensures IsMoved(worked, d.index, t)
    ensures var out := Replacing(d, name, input, now, domainOf, budget);
      out.disk == After(worked, LoadWrites(worked, t.name, domainOf), left)
      && out.result == Read(worked, t.name, domainOf)
  {
    hide Do, Normalize, Read, After, LoadWrites, ReplaceWrites, ReplaceTarget, ReplaceLoads, DirectoryWrites, IsMoved,
      Linked, Foreign, Refreshed;
    t := ReplaceTarget(d, name, input, now, domainOf).value;
    var loads, ws := ReplaceLoads(d, name, input, domainOf), ReplaceWrites(d.index, t);
    worked, left := After(d, loads + ws, budget), Remaining(loads + ws, budget);
    TargetIsAdmitted(d, name, input, now, domainOf);
    ReplaceLength(d.index, t);
    DirectoryWritesTouch(d, t, 0);
    LoadsComeFirst(d, name, input, domainOf, ws, budget);
    MovedDisk(d, After(d, loads, budget), t, budget - |loads|);
  }

  // The entries that move: those with the old DID or the old directory.
  predicate MovesWith(ix: Index, n: string, m: string)
    requires n in ix.credentials && m in ix.credentials
  {
    ix.credentials[m].did == ix.credentials[n].did || ix.credentials[m].dirName == ix.credentials[n].dirName
  }

  ghost predicate IsReplaced(before: Disk, n: string, after: Disk, dir: string, input: SaveInput, saved: Details)
    requires n in before.index.credentials
  {
    && after.index.credentials.Keys == before.index.credentials.Keys
    && (forall m | m in before.index.credentials && MovesWith(before.index, n, m) ::
          var e := after.index.credentials[m];
          e.did == input.did && e.dirName == dir && SameButHandles(saved, e.details))
    && dir in after.dirs && after.dirs[dir].identity.Some?
    && after.dirs[dir].identity.value.did == input.did
    && SameButHandles(saved, after.dirs[dir].identity.value.details)
    && FilesAre(after.dirs[dir].files, input.jwt, input.keys) && "e2ee-state.json" !in after.dirs[dir].files
  }

  ghost predicate IsExact(before: Disk, n: string, after: Disk, dir: string, saved: Details)
    requires n in before.index.credentials
  {
    && after.index.credentials.Keys == before.index.credentials.Keys
    && (forall m | m in before.index.credentials && MovesWith(before.index, n, m) ::
          after.index.credentials[m].details == saved)
    && dir in after.dirs && after.dirs[dir].identity.Some? && after.dirs[dir].identity.value.details == saved
  }

  lemma PlacedDetails(d: Disk, name: string, input: SaveInput, now: string, domainOf: string -> Option<string>)
    requires Normalize(d.index) == d.index && ReplaceTarget(d, name, input, now, domainOf).Ok?
    ensures var t := ReplaceTarget(d, name, input, now, domainOf).value;
      && t.name == (if name in d.index.credentials then name else d.index.defaultName)
      && t.name in d.index.credentials && t.oldDir == d.index.credentials[t.name].dirName
      && t.did == input.did && t.did != "" && t.jwt == input.jwt && t.keys == input.keys
      && PreferredDirName(input.details.uniqueID) == Some(t.dir) && Read(d, t.name, domainOf).Ok?
      && Replaces(t.details, input.details, Read(d, t.name, domainOf).value.details, now, domainOf(input.did))
  {
    hide Normalize, Read, Linked, Foreign, PreferredDirName, TrimSpace, StoredFields;
    EmptyIsBlank();
  }

  lemma LoadsComeFirst(d: Disk, name: string, input: SaveInput, domainOf: string -> Option<string>, ws: seq<Write>,
                       budget: nat)
    ensures var loads := ReplaceLoads(d, name, input, domainOf);
      budget >= |loads| ==>
        && After(d, loads + ws, budget) == After(After(d, loads, budget), ws, budget - |loads|)
        && Refreshed(d, After(d, loads, budget))
  {
    hide Do, Normalize, After, LoadWrites, Refreshed, Resolve;
    var loads := ReplaceLoads(d, name, input, domainOf);
    AfterAppend(d, loads, ws, budget);
    NothingAfter(d, [], budget);
    RefreshedChains(d, d, d);
    if loads != [] {
      LoadRefreshes(d, Resolve(Normalize(d.index), name).value, domainOf, budget);
    }
  }

  // The disk once index and directory are written, whether the old directory is gone or not.
  ghost predicate IsMoved(worked: Disk, ix: Index, t: Replacement) {
    && worked.index == Normalize(Moved(ix, t))
    && HasPayload(worked, t.dir, Payload(t.did, t.details))
    && FilesAre(worked.dirs[t.dir].files, t.jwt, t.keys) && "e2ee-state.json" !in worked.dirs[t.dir].files
  }

  lemma MovedDisk(d: Disk, loaded: Disk, t: Replacement, budget: nat)
    requires budget > |DirectoryWrites(t)|
    ensures IsMoved(After(loaded, ReplaceWrites(d.index, t), budget), d.index, t)
  {
    hide Do, Normalize, Moved, DirectoryWrites, ReplaceWrites, After, FilesAre;
    WritesInThreeParts(loaded, d.index, t, budget);
    DirectoryWritesTouch(loaded, t, budget);
    ContentOfDirectory(loaded, t, budget);
    var written := After(loaded, DirectoryWrites(t), budget);
    PutIndexSaves(written, Moved(d.index, t));
    var put := Do(written, PutIndex(Moved(d.index, t)));
    RemovalKeepsIndex(put, t, budget - |DirectoryWrites(t)| - 1);
    NewDirectoryStays(put, t, budget - |DirectoryWrites(t)| - 1);
  }

  lemma NewDirectoryStays(d: Disk, t: Replacement, budget: nat)
    requires t.dir in d.dirs
    ensures t.dir in After(d, Removal(t), budget).dirs && After(d, Removal(t), budget).dirs[t.dir] == d.dirs[t.dir]
  {}

  lemma ContentOfDirectory(d: Disk, t: Replacement, budget: nat)
    requires budget > |DirectoryWrites(t)|
    ensures var written := After(d, DirectoryWrites(t), budget);
      && t.dir in written.dirs && FilesAre(written.dirs[t.dir].files, t.jwt, t.keys)
      && "e2ee-state.json" !in written.dirs[t.dir].files
  {
    hide Do, After, FileWrites, KeyFiles;
    var p, drop := Payload(t.did, t.details), DropFile(t.dir, "e2ee-state.json");
    var files := FileWrites(t.dir, p, t.jwt, t.keys);
    FilesAreWritten(d, t.dir, p, t.jwt, t.keys, budget);
    LastWrite(d, files, drop, budget);
    var full := After(d, files, budget);
    NoStateFile(t.keys);
    DroppedFile(full, t.dir, "e2ee-state.json");
  }

  lemma NoStateFile(keys: Keys)
    ensures forall f | f in KeyFiles(keys) :: f.name != "e2ee-state.json"
    ensures "auth.json" != "e2ee-state.json"
  {
    hide KeyFiles, Named;
    KeyFilesAreNamed(keys);
    NamesAreLonger();
    forall f | f in KeyFiles(keys) ensures |f.name| > |"e2ee-state.json"| {
      NamedFile(KeyFiles(keys), KEY_FILE_NAMES, f);
    }
    assert "auth.json"[0] != "e2ee-state.json"[0];
  }

  const KEY_FILE_NAMES: set<string> := {"did_document.json", "key-1-private.pem", "key-1-public.pem",
                                        "e2ee-signing-private.pem", "e2ee-agreement-private.pem"}

  lemma NamesAreLonger()
    ensures forall s | s in KEY_FILE_NAMES :: |s| > |"e2ee-state.json"|
  {}

  lemma NamedFile(files: seq<File>, names: set<string>, f: File)
    requires Named(files, names) && f in files
    ensures f.name in names
  {}

  lemma DroppedFile(d: Disk, dir: string, file: string)
    requires dir in d.dirs
    ensures var after := Do(d, DropFile(dir, file));
      dir in after.dirs && after.dirs[dir].files == d.dirs[dir].files - {file}
  {}

  lemma MovedIsRead(worked: Disk, ix: Index, t: Replacement, domainOf: string -> Option<string>)
    requires Normalize(ix) == ix && IsMoved(worked, ix, t) && t.name in ix.credentials && t.did != ""
    requires t.linked == Linked(ix, ix.credentials[t.name])
    ensures Read(worked, t.name, domainOf)
      == Ok(Stored(t.name, t.dir, t.did, Twice(t.details, domainOf(t.did)), ix.defaultName == t.name))
  {
    hide WithStoredHandles, FilesAre;
    MovedIndex(ix, t);
    NormalizeIsIdempotent(Moved(ix, t));
    assert MergedDetails(t.details, t.details) == t.details;
  }

  lemma MovedIndex(ix: Index, t: Replacement)
    requires Normalize(ix) == ix && t.name in ix.credentials && t.linked == Linked(ix, ix.credentials[t.name])
    ensures var after := Normalize(Moved(ix, t));
      && after.credentials.Keys == ix.credentials.Keys && after.defaultName == ix.defaultName
      && forall m | m in ix.credentials && MovesWith(ix, t.name, m) ::
           after.credentials[m] == Entry(m, t.dir, t.did, t.details, ix.defaultName == m)
  {
    NormalizeIsIdempotent(ix);
  }

  lemma MovedIsQuiet(worked: Disk, ix: Index, t: Replacement, domainOf: string -> Option<string>)
    requires Normalize(ix) == ix && IsMoved(worked, ix, t) && t.name in ix.credentials && t.did != ""
    requires t.linked == Linked(ix, ix.credentials[t.name]) && Twice(t.details, domainOf(t.did)) == t.details
    ensures LoadWrites(worked, t.name, domainOf) == []
  {
    hide WithStoredHandles, Read, FilesAre, Normalize;
    MovedIndex(ix, t);
    NormalizeIsIdempotent(Moved(ix, t));
    MovedIsRead(worked, ix, t, domainOf);
  }

  lemma MovedIsExact(d: Disk, worked: Disk, t: Replacement)
    requires Normalize(d.index) == d.index && IsMoved(worked, d.index, t) && t.name in d.index.credentials
    requires t.linked == Linked(d.index, d.index.credentials[t.name])
    ensures IsExact(d, t.name, worked, t.dir, t.details)
  {
    hide Normalize, Moved, FilesAre;
    MovedIndex(d.index, t);
  }

  lemma RefreshedReplacement(d: Disk, worked: Disk, out: Disk, t: Replacement, input: SaveInput)
    requires Normalize(d.index) == d.index && IsMoved(worked, d.index, t) && Refreshed(worked, out)
    requires t.name in d.index.credentials && t.linked == Linked(d.index, d.index.credentials[t.name])
    requires t.did == input.did && t.jwt == input.jwt && t.keys == input.keys
    ensures IsReplaced(d, t.name, out, t.dir, input, t.details)
  {
    hide Normalize, Moved, FilesAre;
    MovedIndex(d.index, t);
    NormalizeIsIdempotent(Moved(d.index, t));
    assert t.dir in worked.dirs && out.dirs.Keys == worked.dirs.Keys;
  }
}
