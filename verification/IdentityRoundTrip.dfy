// What is saved is what is loaded: save and SetDefault of internal/identity/store.go against Load and Current.
module IdentityRoundTrip {
  import opened Wrappers
  import opened Text
  import opened Naming
  import opened StoredHandles
  import opened StoredHandleInput
  import opened IdentityIndex
  import opened IdentityIntegrity
  import opened IdentityLoad
  import opened IdentityCommands
  import opened IdentityReplacement
  import opened IdentityStore

  // ---- The files ----

  lemma {:induction false} PutFilesWrites(d: Disk, dir: string, files: seq<File>, i: nat)
    requires dir in d.dirs && i < |files|
    requires forall j | i < j < |files| :: files[j].name != files[i].name
    ensures var after := After(d, PutFiles(dir, files), |files|);
      dir in after.dirs && files[i].name in after.dirs[dir].files
        && after.dirs[dir].files[files[i].name] == files[i].content
    decreases |files|
  {
    var put := PutFile(dir, files[0].name, files[0].content);
    assert PutFiles(dir, files)[1..] == PutFiles(dir, files[1..]);
    if i > 0 {
      PutFilesWrites(Do(d, put), dir, files[1..], i - 1);
    } else {
      OtherFilesStay(Do(d, put), dir, files[1..], files[0].name);
    }
  }

  // The content of a file, if it is there.
  function FileAt(d: Disk, dir: string, name: string): Option<string> {
    if dir in d.dirs && name in d.dirs[dir].files then Some(d.dirs[dir].files[name]) else None
  }

  lemma {:induction false} OtherFilesStay(d: Disk, dir: string, files: seq<File>, name: string)
    requires dir in d.dirs && forall f | f in files :: f.name != name
    ensures var after := After(d, PutFiles(dir, files), |files|);
      dir in after.dirs && FileAt(after, dir, name) == FileAt(d, dir, name)
    decreases |files|
  {
    if files != [] {
      assert files[0] in files && forall f | f in files[1..] :: f in files;
      assert PutFiles(dir, files)[1..] == PutFiles(dir, files[1..]);
      OtherFilesStay(Do(d, PutFile(dir, files[0].name, files[0].content)), dir, files[1..], name);
    }
  }

  ghost predicate Named(files: seq<File>, names: set<string>) {
    && (forall i, j | 0 <= i < j < |files| :: files[i].name != files[j].name)
    && (forall f | f in files :: f.name in names)
  }

  lemma NamedAppend(a: seq<File>, b: seq<File>, m: set<string>, n: set<string>)
    requires Named(a, m) && Named(b, n) && m !! n
    ensures Named(a + b, m + n)
  {
    forall i, j | 0 <= i < |a| && 0 <= j < |b| ensures a[i].name != b[j].name {
      assert a[i] in a && b[j] in b;
    }
  }

  lemma KeyFilesAreNamed(k: Keys)
    ensures Named(KeyFiles(k), {"did_document.json", "key-1-private.pem", "key-1-public.pem",
                                "e2ee-signing-private.pem", "e2ee-agreement-private.pem"})
  {
    hide Named;
    var one := match k.didDocument case Some(doc) => [File("did_document.json", doc)] case None => [];
    var two := one + Present("key-1-private.pem", k.key1Private);
    var three := two + Present("key-1-public.pem", k.key1Public);
    var four := three + Present("e2ee-signing-private.pem", k.e2eeSigning);
    var names := {"did_document.json"};
    assert "did_document.json"[0] != "key-1-private.pem"[0];
    OneIsNamed(one, "did_document.json");
    AppendPresent(one, names, "key-1-private.pem", k.key1Private);
    names := names + {"key-1-private.pem"};
    AppendPresent(two, names, "key-1-public.pem", k.key1Public);
    names := names + {"key-1-public.pem"};
    AppendPresent(three, names, "e2ee-signing-private.pem", k.e2eeSigning);
    names := names + {"e2ee-signing-private.pem"};
    AppendPresent(four, names, "e2ee-agreement-private.pem", k.e2eeAgreement);
    names := names + {"e2ee-agreement-private.pem"};
    assert KeyFiles(k) == four + Present("e2ee-agreement-private.pem", k.e2eeAgreement);
    assert names == {"did_document.json", "key-1-private.pem", "key-1-public.pem",
                     "e2ee-signing-private.pem", "e2ee-agreement-private.pem"};
  }

  lemma OneIsNamed(files: seq<File>, name: string)
    requires |files| <= 1 && (files != [] ==> files[0].name == name)
    ensures Named(files, {name})
  {}

  lemma AppendPresent(files: seq<File>, names: set<string>, name: string, content: string)
    requires Named(files, names) && name !in names
    ensures Named(files + Present(name, content), names + {name})
  {
    hide Named;
    OneIsNamed(Present(name, content), name);
    NamedAppend(files, Present(name, content), names, {name});
  }

  lemma KeyFilesAreDistinct(k: Keys)
    ensures forall i, j | 0 <= i < j < |KeyFiles(k)| :: KeyFiles(k)[i].name != KeyFiles(k)[j].name
    ensures forall f | f in KeyFiles(k) :: f.name != "auth.json"
  {
    hide KeyFiles;
    KeyFilesAreNamed(k);
  }

  predicate HasFile(files: map<string, string>, name: string, content: string) {
    name in files && files[name] == content
  }

  // The token, the DID document if there is one, and the keys that are not empty, under their names.
  predicate FilesAre(files: map<string, string>, jwt: string, keys: Keys) {
    && HasFile(files, "auth.json", jwt)
    && (keys.didDocument.Some? ==> HasFile(files, "did_document.json", keys.didDocument.value))
    && (keys.key1Private != "" ==> HasFile(files, "key-1-private.pem", keys.key1Private))
    && (keys.key1Public != "" ==> HasFile(files, "key-1-public.pem", keys.key1Public))
    && (keys.e2eeSigning != "" ==> HasFile(files, "e2ee-signing-private.pem", keys.e2eeSigning))
    && (keys.e2eeAgreement != "" ==> HasFile(files, "e2ee-agreement-private.pem", keys.e2eeAgreement))
  }

  lemma FilesByName(files: map<string, string>, jwt: string, k: Keys)
    requires HasFile(files, "auth.json", jwt) && forall f | f in KeyFiles(k) :: HasFile(files, f.name, f.content)
    ensures FilesAre(files, jwt, k)
  {
    hide HasFile;
    IsPresent("key-1-private.pem", k.key1Private);
    IsPresent("key-1-public.pem", k.key1Public);
    IsPresent("e2ee-signing-private.pem", k.e2eeSigning);
    IsPresent("e2ee-agreement-private.pem", k.e2eeAgreement);
    if k.didDocument.Some? {
      assert File("did_document.json", k.didDocument.value) in KeyFiles(k);
    }
  }

  lemma IsPresent(name: string, content: string)
    ensures content != "" ==> File(name, content) in Present(name, content)
  {}

  // Every file of the input is in the directory afterwards, under its own name.
  lemma FilesAreWritten(d: Disk, dir: string, p: Payload, jwt: string, keys: Keys, budget: nat)
    requires budget >= |FileWrites(dir, p, jwt, keys)|
    ensures var after := After(d, FileWrites(dir, p, jwt, keys), budget);
      dir in after.dirs && FilesAre(after.dirs[dir].files, jwt, keys)
  {
    hide KeyFiles, Do, FilesAre;
    var files := KeyFiles(keys);
    var first := [MakeDir(dir), PutIdentity(dir, p), PutFile(dir, "auth.json", jwt)];
    var three := Do(Do(Do(d, first[0]), first[1]), first[2]);
    KeyFilesAreDistinct(keys);
    assert FileWrites(dir, p, jwt, keys) == first + PutFiles(dir, files);
    FirstThree(d, dir, p, jwt);
    AfterAppend(d, first, PutFiles(dir, files), budget);
    MoreThanEnough(three, PutFiles(dir, files), budget - 3);
    OtherFilesStay(three, dir, files, "auth.json");
    forall f | f in files
      ensures var after := After(three, PutFiles(dir, files), |files|);
        f.name in after.dirs[dir].files && after.dirs[dir].files[f.name] == f.content
    {
      var i :| 0 <= i < |files| && files[i] == f;
      PutFilesWrites(three, dir, files, i);
    }
    FilesByName(After(d, FileWrites(dir, p, jwt, keys), budget).dirs[dir].files, jwt, keys);
  }

  predicate IsGiven(keys: Keys, name: string) {
    || name == "auth.json"
    || (name == "did_document.json" && keys.didDocument.Some?)
    || (name == "key-1-private.pem" && keys.key1Private != "")
    || (name == "key-1-public.pem" && keys.key1Public != "")
    || (name == "e2ee-signing-private.pem" && keys.e2eeSigning != "")
    || (name == "e2ee-agreement-private.pem" && keys.e2eeAgreement != "")
  }

  // A file the input does not give stays as it is, so no key is lost by saving without it.
  lemma OtherFilesAreKept(d: Disk, dir: string, p: Payload, jwt: string, keys: Keys, name: string, budget: nat)
    requires budget >= |FileWrites(dir, p, jwt, keys)| && !IsGiven(keys, name)
    ensures FileAt(After(d, FileWrites(dir, p, jwt, keys), budget), dir, name) == FileAt(d, dir, name)
  {
    hide KeyFiles, Do;
    var files := KeyFiles(keys);
    var first := [MakeDir(dir), PutIdentity(dir, p), PutFile(dir, "auth.json", jwt)];
    var three := Do(Do(Do(d, first[0]), first[1]), first[2]);
    assert FileWrites(dir, p, jwt, keys) == first + PutFiles(dir, files);
    FirstThree(d, dir, p, jwt);
    ThreeKeep(d, dir, p, jwt, name);
    AfterAppend(d, first, PutFiles(dir, files), budget);
    MoreThanEnough(three, PutFiles(dir, files), budget - 3);
    GivenFiles(keys, name);
    OtherFilesStay(three, dir, files, name);
  }

  lemma ThreeKeep(d: Disk, dir: string, p: Payload, jwt: string, name: string)
    requires name != "auth.json"
    ensures var three := Do(Do(Do(d, MakeDir(dir)), PutIdentity(dir, p)), PutFile(dir, "auth.json", jwt));
      FileAt(three, dir, name) == FileAt(d, dir, name)
  {}

  lemma GivenFiles(keys: Keys, name: string)
    requires !IsGiven(keys, name)
    ensures forall f | f in KeyFiles(keys) :: f.name != name
  {}

  lemma FirstThree(d: Disk, dir: string, p: Payload, jwt: string)
    ensures var first := [MakeDir(dir), PutIdentity(dir, p), PutFile(dir, "auth.json", jwt)];
      var three := Do(Do(Do(d, first[0]), first[1]), first[2]);
      && dir in three.dirs && "auth.json" in three.dirs[dir].files && three.dirs[dir].files["auth.json"] == jwt
      && forall budget: nat | budget >= 3 :: After(d, first, budget) == three
  {
    var one, two, three := MakeDir(dir), PutIdentity(dir, p), PutFile(dir, "auth.json", jwt);
    assert [] + [one] == [one] && [one] + [two] == [one, two] && [one, two] + [three] == [one, two, three];
    forall budget: nat | budget >= 3 ensures After(d, [one, two, three], budget) == Do(Do(Do(d, one), two), three) {
      LastWrite(d, [], one, budget);
      LastWrite(d, [one], two, budget);
      LastWrite(d, [one, two], three, budget);
    }
  }

  // ---- Save, then load ----

  // A completed save ends in its own writes, on a disk in which its directory has been made and the handle
  // fields of an identity of that name may have been refreshed.
  lemma SaveWorkEnds(d: Disk, dir: string, input: SaveInput, details: Details, domainOf: string -> Option<string>,
                     budget: nat) returns (loaded: Disk)
    requires budget >= |SaveWork(d, dir, input, details, domainOf)|
    ensures Refreshed(Do(d, MakeDir(dir)), loaded) && dir in loaded.dirs
    ensures LoadWrites(d, input.name, domainOf) == [] ==> loaded == Do(d, MakeDir(dir))
    ensures var ws := SaveWrites(d, dir, input, details);
      After(d, SaveWork(d, dir, input, details, domainOf), budget) == After(loaded, ws, |ws|)
  {
    hide Do, After, LoadWrites, Refreshed, ContentAndIndex, SaveWrites, Normalize;
    var make, loads := MakeDir(dir), LoadWrites(d, input.name, domainOf);
    var rest := ContentAndIndex(Normalize(d.index), dir, input, details);
    var made := Do(d, make);
    MakeDirIsNotRead(d, dir, input.name, domainOf);
    LoadRefreshes(made, input.name, domainOf, |loads|);
    loaded := After(made, loads, |loads|);
    NothingAfter(made, [], 0);
    DirectoryIsMade(d, loaded, dir);
    SaveWritesInTwoParts(d, dir, input, details);
    RepeatedFirst(d, make, loads, rest, budget);
  }

  // A first write that changes nothing later can be made later.
  lemma RepeatedFirst(d: Disk, w: Write, loads: seq<Write>, rest: seq<Write>, budget: nat)
    requires budget >= 1 + |loads| + |rest|
    requires var loaded := After(Do(d, w), loads, |loads|); Do(loaded, w) == loaded
    ensures After(d, [w] + loads + rest, budget)
      == After(After(Do(d, w), loads, |loads|), [w] + rest, |[w] + rest|)
  {
    hide Do, After;
    var loaded := After(Do(d, w), loads, |loads|);
    AfterAppend(d, [w], loads, budget);
    AfterAppend(d, [w] + loads, rest, budget);
    OneWrite(d, w, budget);
    MoreThanEnough(Do(d, w), loads, budget - 1);
    MoreThanEnough(loaded, rest, budget - 1 - |loads|);
    AfterAppend(loaded, [w], rest, |[w] + rest|);
    OneWrite(loaded, w, |[w] + rest|);
  }

  lemma DirectoryIsMade(d: Disk, loaded: Disk, dir: string)
    requires Refreshed(Do(d, MakeDir(dir)), loaded)
    ensures dir in loaded.dirs && Do(loaded, MakeDir(dir)) == loaded
  {
    hide Normalize;
    assert dir in Do(d, MakeDir(dir)).dirs.Keys;
  }

  // The details of a save: those of the input, with the handles in normal form and the creation time of the
  // identity that had the name before, if it has one.
  ghost predicate Saves(saved: Details, input: Details, before: Result<Stored, Error>, now: string,
                        didDomain: Option<string>)
  {
    && saved.uniqueID == input.uniqueID && saved.userID == input.userID && saved.displayName == input.displayName
    && saved.createdAt == (if before.Ok? && before.value.details.createdAt != "" then before.value.details.createdAt
                           else now)
    && (saved.handle, saved.fullHandle) == StoredFields(input.handle, input.fullHandle, didDomain)
  }

  // What a save that completes returns: the name, the directory, the DID and the details that it saved,
  // where only the handle fields are normalised again. Identity file, entry and the files of the input are
  // there, and the identity is the default if there was none. When the handles of the input fit, the details
  // come back as they were saved, and loading the identity again finds the same and writes nothing.
  lemma SaveThenLoad(d: Disk, input: SaveInput, now: string, domainOf: string -> Option<string>, budget: nat)
    returns (saved: Details)
    requires Kept(d) && SaveTarget(d, input).Ok?
    requires budget >= |Writes(d, Save(input, now), domainOf)|
    ensures var out := Saving(d, input, now, domainOf, budget);
      var domain, dir := domainOf(input.did), SaveTarget(d, input).value;
      var stored := Stored(input.name, dir, input.did, Twice(saved, domain),
                           d.index.defaultName == "" || d.index.defaultName == input.name);
      && PreferredDirName(input.details.uniqueID) == Some(dir)
      && Saves(saved, input.details, Read(d, input.name, domainOf), now, domain)
      && out.result == Ok(stored)
      && IsOnDisk(out.disk, dir, input, saved)
      && (StoredFits(input.details.handle, input.details.fullHandle, domain) ==>
            && stored.details == saved && IsSaved(out.disk, input.name, dir, saved)
            && HasPayload(out.disk, dir, Payload(input.did, saved))
            && Read(out.disk, input.name, domainOf) == Ok(stored) && LoadWrites(out.disk, input.name, domainOf) == [])
  {
    hide Do, FileWrites, KeyFiles, SavedDetails, StoredFits, SaveTarget, Read, Normalize, SavedIndex,
      WithStoredHandles, After, SaveWork, LoadWrites, FilesAre, Kept, Refreshed, IsOnDisk, Saves, PreferredDirName,
      IsSaved;
    var dir := SaveTarget(d, input).value;
    saved := SavedDetails(d, input, now, domainOf);
    var work := SaveWork(d, dir, input, saved, domainOf);
    var worked := After(d, work, budget);
    TargetIsNamed(d, input);
    SavesItsInput(d, input, now, domainOf);
    SavedIsRead(d, dir, input, saved, domainOf, budget);
    MoreThanEnough(d, work, budget);
    LoadRefreshes(worked, input.name, domainOf, budget - |work|);
    StaysOnDisk(worked, After(worked, LoadWrites(worked, input.name, domainOf), budget - |work|), dir, input, saved);
    if StoredFits(input.details.handle, input.details.fullHandle, domainOf(input.did)) {
      HandlesAreStored(d, input, now, domainOf);
      SavedIsQuiet(worked, dir, input, saved, domainOf);
      NothingAfter(worked, LoadWrites(worked, input.name, domainOf), budget - |work|);
    }
  }

  lemma SavesItsInput(d: Disk, input: SaveInput, now: string, domainOf: string -> Option<string>)
    requires SaveTarget(d, input).Ok?
    ensures PreferredDirName(input.details.uniqueID) == Some(SaveTarget(d, input).value)
    ensures Saves(SavedDetails(d, input, now, domainOf), input.details, Read(d, input.name, domainOf), now,
                  domainOf(input.did))
  {
    hide Read, StoredFields, PreferredDirName, Normalize;
  }

  // Entry, identity file and files of a saved identity; a load can have changed handle fields since.
  ghost predicate IsOnDisk(d: Disk, dir: string, input: SaveInput, saved: Details) {
    && input.name in d.index.credentials && d.index.credentials[input.name].dirName == dir
    && d.index.credentials[input.name].did == input.did
    && SameButHandles(saved, d.index.credentials[input.name].details)
    && dir in d.dirs && d.dirs[dir].identity.Some? && d.dirs[dir].identity.value.did == input.did
    && SameButHandles(saved, d.dirs[dir].identity.value.details)
    && FilesAre(d.dirs[dir].files, input.jwt, input.keys)
  }

  lemma StaysOnDisk(a: Disk, b: Disk, dir: string, input: SaveInput, saved: Details)
    requires Refreshed(a, b) && Normalize(a.index) == a.index && IsSaved(a, input.name, dir, saved)
    requires a.index.credentials[input.name].did == input.did && HasPayload(a, dir, Payload(input.did, saved))
    requires FilesAre(a.dirs[dir].files, input.jwt, input.keys)
    ensures IsOnDisk(b, dir, input, saved)
  {
    hide Normalize, FilesAre;
    assert dir in b.dirs.Keys;
  }

  ghost predicate IsSaved(d: Disk, name: string, dir: string, details: Details) {
    var ix := Normalize(d.index);
    name in ix.credentials && ix.credentials[name].dirName == dir && ix.credentials[name].details == details
  }

  // The disk a save leaves for its last load.
  lemma SavedIsRead(d: Disk, dir: string, input: SaveInput, details: Details, domainOf: string -> Option<string>,
                    budget: nat)
    requires Kept(d) && input.name != "" && input.did != ""
    requires budget >= |SaveWork(d, dir, input, details, domainOf)|
    ensures var worked := After(d, SaveWork(d, dir, input, details, domainOf), budget);
      && Read(worked, input.name, domainOf)
        == Ok(Stored(input.name, dir, input.did, Twice(details, domainOf(input.did)),
                     d.index.defaultName == "" || d.index.defaultName == input.name))
      && Normalize(worked.index) == worked.index && IsSaved(worked, input.name, dir, details)
      && worked.index.credentials[input.name].did == input.did
      && HasPayload(worked, dir, Payload(input.did, details)) && FilesAre(worked.dirs[dir].files, input.jwt, input.keys)
  {
    hide Do, FileWrites, KeyFiles, Read, Normalize, SavedIndex, After, SaveWork, WithStoredHandles, Refreshed;
    var p := Payload(input.did, details);
    var ix := SavedIndex(d.index, input.name, dir, input.did, details);
    var loaded := SaveWorkEnds(d, dir, input, details, domainOf, budget);
    var files := FileWrites(dir, p, input.jwt, input.keys);
    KeptIsNormal(d);
    FileWritesLength(dir, p, input.jwt, input.keys);
    FileWritesTouch(loaded, dir, p, input.jwt, input.keys, |files| + 1);
    FilesAreWritten(loaded, dir, p, input.jwt, input.keys, |files| + 1);
    LastWrite(loaded, files, PutIndex(ix), |files| + 1);
    PutIndexSaves(After(loaded, files, |files| + 1), ix);
    SavedEntryIsRead(d.index, Do(After(loaded, files, |files| + 1), PutIndex(ix)), input.name, dir, input.did, details,
                     domainOf);
  }

  // Details that come back as they were saved leave nothing to write.
  lemma SavedIsQuiet(worked: Disk, dir: string, input: SaveInput, details: Details,
                     domainOf: string -> Option<string>)
    requires IsSaved(worked, input.name, dir, details) && HasPayload(worked, dir, Payload(input.did, details))
    requires Read(worked, input.name, domainOf).Ok? && Read(worked, input.name, domainOf).value.name == input.name
      && Read(worked, input.name, domainOf).value.details == details
    ensures LoadWrites(worked, input.name, domainOf) == []
  {
    hide Normalize, Read, WithStoredHandles;
  }

  lemma TargetIsNamed(d: Disk, input: SaveInput)
    requires SaveTarget(d, input).Ok?
    ensures input.name != "" && input.did != ""
  {
    hide TrimSpace, Normalize;
    EmptyIsBlank();
  }

  lemma HandlesAreStored(d: Disk, input: SaveInput, now: string, domainOf: string -> Option<string>)
    ensures var details := SavedDetails(d, input, now, domainOf);
      StoredFits(input.details.handle, input.details.fullHandle, domainOf(input.did)) ==>
        WithStoredHandles(details, domainOf(input.did)) == details
  {
    hide StoredFits, StoredFields, CreatedAt;
    StoredFieldsIdempotent(input.details.handle, input.details.fullHandle, domainOf(input.did));
  }

  lemma SavedEntryIsRead(before: Index, after: Disk, name: string, dir: string, did: string, details: Details,
                    domainOf: string -> Option<string>)
    requires Normalize(before) == before && name != "" && did != ""
    requires after.index == Normalize(SavedIndex(before, name, dir, did, details))
    requires HasPayload(after, dir, Payload(did, details))
    ensures Read(after, name, domainOf)
      == Ok(Stored(name, dir, did, Twice(details, domainOf(did)),
                   before.defaultName == "" || before.defaultName == name))
    ensures Normalize(after.index) == after.index && IsSaved(after, name, dir, details)
    ensures after.index.credentials[name].did == did
  {
    hide WithStoredHandles;
    NormalizeIsIdempotent(SavedIndex(before, name, dir, did, details));
    assert MergedDetails(details, details) == details;
  }

  // Every other entry stays as it is, and of its directory, unless it is the one that is written, no more
  // than the handle fields change: not even those when nothing was stored under the name before.
  lemma SaveLeavesOthers(d: Disk, input: SaveInput, now: string, domainOf: string -> Option<string>, budget: nat,
                         n: string)
    requires Kept(d) && SaveTarget(d, input).Ok? && budget >= |Work(d, Save(input, now), domainOf)|
    requires n in d.index.credentials && n != input.name && n != ""
    ensures var dir, after := SaveTarget(d, input).value, Saving(d, input, now, domainOf, budget).disk;
      var x := d.index.credentials[n].dirName;
      && n in after.index.credentials && after.index.credentials[n] == d.index.credentials[n]
      && (x != dir ==>
            && x in after.dirs && SameDirectory(d.dirs[x], after.dirs[x])
            && (LoadWrites(d, input.name, domainOf) == [] ==> after.dirs[x] == d.dirs[x]))
  {
    hide Do, After, FileWrites, SaveTarget, Normalize, SaveWork, LoadWrites, Refreshed, SameDirectory, SavedDetails,
      OthersStay;
    var dir, details := SaveTarget(d, input).value, SavedDetails(d, input, now, domainOf);
    var work, x := SaveWork(d, dir, input, details, domainOf), d.index.credentials[n].dirName;
    var worked := After(d, work, budget);
    var loaded := SaveWorkEnds(d, dir, input, details, domainOf, budget);
    TargetIsNamed(d, input);
    KeptIsNormal(d);
    assert Holds(d, x);
    OwnWritesLeaveOthers(d, loaded, dir, input, details, n);
    RefreshedDirectory(d, loaded, dir, x);
    LoadLeavesOthers(worked, input.name, domainOf, Remaining(work, budget));
    LoadRefreshes(worked, input.name, domainOf, Remaining(work, budget));
    OtherStays(worked, After(worked, LoadWrites(worked, input.name, domainOf), Remaining(work, budget)), input.name, n,
               x);
  }

  lemma OwnWritesLeaveOthers(d: Disk, loaded: Disk, dir: string, input: SaveInput, details: Details, n: string)
    requires Normalize(d.index) == d.index && n in d.index.credentials && n != input.name && n != ""
    requires input.name != ""
    ensures var ws := SaveWrites(d, dir, input, details);
      var worked := After(loaded, ws, |ws|);
      && Normalize(worked.index) == worked.index && n in worked.index.credentials
      && worked.index.credentials[n] == d.index.credentials[n] && input.name in worked.index.credentials
      && worked.index.credentials[input.name].dirName == dir
      && forall x | x in loaded.dirs && x != dir :: x in worked.dirs && worked.dirs[x] == loaded.dirs[x]
  {
    hide Do, After, FileWrites, Normalize;
    var files, p := FileWrites(dir, Payload(input.did, details), input.jwt, input.keys), Payload(input.did, details);
    var ix := SavedIndex(d.index, input.name, dir, input.did, details);
    FileWritesTouch(loaded, dir, p, input.jwt, input.keys, |files| + 1);
    LastWrite(loaded, files, PutIndex(ix), |files| + 1);
    PutIndexSaves(After(loaded, files, |files| + 1), ix);
    EntryIsKept(d.index, ix, n);
    SavedEntryIsThere(ix, input.name);
    NormalizeIsIdempotent(ix);
  }

  lemma SavedEntryIsThere(ix: Index, name: string)
    requires name in ix.credentials
    ensures name in Normalize(ix).credentials
    ensures Normalize(ix).credentials[name].dirName == ix.credentials[name].dirName
  {}

  lemma RefreshedDirectory(d: Disk, loaded: Disk, dir: string, x: string)
    requires Refreshed(Do(d, MakeDir(dir)), loaded) && x in d.dirs
    ensures x in loaded.dirs && SameDirectory(d.dirs[x], loaded.dirs[x])
    ensures loaded == Do(d, MakeDir(dir)) ==> loaded.dirs[x] == d.dirs[x]
  {
    hide Normalize, SameDirectory;
    assert x in Do(d, MakeDir(dir)).dirs.Keys;
  }

  lemma OtherStays(a: Disk, b: Disk, name: string, n: string, x: string)
    requires OthersStay(a, b, name) && Normalize(a.index) == a.index && n in a.index.credentials && n != name
    requires Refreshed(a, b)
    ensures n in b.index.credentials && b.index.credentials[n] == a.index.credentials[n]
    ensures x in a.dirs && x != a.index.credentials[name].dirName ==> x in b.dirs && b.dirs[x] == a.dirs[x]
  {
    hide Normalize;
  }

  lemma EntryIsKept(before: Index, ix: Index, n: string)
    requires Normalize(before) == before && n in before.credentials && n in ix.credentials
    requires ix.credentials[n] == before.credentials[n] && ix.defaultName != ""
    requires before.defaultName == ix.defaultName || (before.defaultName == "" && n != ix.defaultName && n != "")
    ensures n in Normalize(ix).credentials && Normalize(ix).credentials[n] == before.credentials[n]
  {
    NormalizeIsIdempotent(before);
  }

  // ---- SetDefault, then Current ----

  // The chosen identity is the default and alone carries the flag. Nothing else changes but, when its full
  // handle is blank, so that it is loaded for its summary, its own handle fields.
  lemma SetDefaultChooses(d: Disk, name: string, domainOf: string -> Option<string>, budget: nat)
    requires Kept(d) && name in d.index.credentials && name != "" && budget > 0
    ensures var before, after := d.index, Choosing(d, name, domainOf, budget).disk;
      var own := before.credentials[name].dirName;
      && after.index.defaultName == name && after.index.credentials.Keys == before.credentials.Keys
      && (forall n | n in before.credentials && n != name ::
            after.index.credentials[n] == before.credentials[n].(isDefault := false))
      && SameEntry(before.credentials[name].(isDefault := true), after.index.credentials[name])
      && (forall x | x in d.dirs && x != own :: x in after.dirs && after.dirs[x] == d.dirs[x])
      && own in d.dirs && own in after.dirs && SameDirectory(d.dirs[own], after.dirs[own])
      && (!Blank(before.credentials[name].details.fullHandle) ==>
            && after.dirs == d.dirs
            && after.index.credentials[name] == before.credentials[name].(isDefault := true))
  {
    hide Do, Normalize, TrimSpace, After, LoadWrites, Refreshed, OthersStay, Summarize, SameEntry, SameDirectory;
    var put := PutIndex(d.index.(defaultName := name));
    var chosen := Do(d, put);
    var after := Choosing(d, name, domainOf, budget).disk;
    KeptIsNormal(d);
    ChosenIndex(d, name);
    assert Holds(d, d.index.credentials[name].dirName);
    NothingAfter(chosen, [], budget - 1);
    NothingAfter(chosen, LoadWrites(chosen, name, domainOf), 0);
    var stop := if Blank(d.index.credentials[name].details.fullHandle) && !Blank(name) then budget - 1 else 0;
    LoadLeavesOthers(chosen, name, domainOf, stop);
    LoadRefreshes(chosen, name, domainOf, stop);
    OthersAndOwn(chosen, after, name);
  }

  lemma ChosenIndex(d: Disk, name: string)
    requires Normalize(d.index) == d.index && name in d.index.credentials && name != ""
    ensures var after := Do(d, PutIndex(d.index.(defaultName := name)));
      && after.dirs == d.dirs && after.index.defaultName == name && Normalize(after.index) == after.index
      && after.index.credentials.Keys == d.index.credentials.Keys && d.index.credentials[name].name == name
      && forall n | n in d.index.credentials ::
           after.index.credentials[n] == d.index.credentials[n].(isDefault := n == name)
  {
    NormalizeIsIdempotent(d.index);
    NormalizeIsIdempotent(d.index.(defaultName := name));
  }

  lemma OthersAndOwn(a: Disk, b: Disk, name: string)
    requires Refreshed(a, b) && OthersStay(a, b, name) && Normalize(a.index) == a.index
    ensures b.index.defaultName == a.index.defaultName && b.index.credentials.Keys == a.index.credentials.Keys
    ensures name in a.index.credentials && SameEntry(a.index.credentials[name], b.index.credentials[name])
    ensures forall n | n in a.index.credentials && n != name :: b.index.credentials[n] == a.index.credentials[n]
    ensures var own := a.index.credentials[name].dirName;
      && (forall x | x in a.dirs && x != own :: x in b.dirs && b.dirs[x] == a.dirs[x])
      && (own in a.dirs ==> own in b.dirs && SameDirectory(a.dirs[own], b.dirs[own]))
  {
    hide Normalize, SameDirectory;
    assert forall x | x in a.dirs :: x in b.dirs.Keys;
  }
}
