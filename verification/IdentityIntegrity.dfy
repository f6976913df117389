// What the identity store keeps, over every sequence of operations and wherever one of them stops.
module IdentityIntegrity {
  import opened Wrappers
  import opened Text
  import opened IdentityIndex

  // ---- The invariants ----

  ghost predicate DefaultLive(ix: Index) {
    ix.defaultName == "" || ix.defaultName in ix.credentials
  }

  ghost predicate Holds(d: Disk, dir: string) {
    dir in d.dirs && d.dirs[dir].identity.Some?
  }

  // Every entry's directory is there and has an identity file.
  ghost predicate HasDirs(d: Disk) {
    forall n | n in d.index.credentials :: Holds(d, d.index.credentials[n].dirName)
  }

  // Entries that share a directory share the DID.
  ghost predicate DirsAgree(ix: Index) {
    forall m, n | m in ix.credentials && n in ix.credentials
      && ix.credentials[m].dirName == ix.credentials[n].dirName ::
      ix.credentials[m].did == ix.credentials[n].did
  }

  // The identity file names the entry's DID.
  ghost predicate Agrees(d: Disk, e: Entry) {
    Holds(d, e.dirName) && d.dirs[e.dirName].identity.value.did == e.did
  }

  ghost predicate Honest(d: Disk) {
    forall n | n in d.index.credentials :: Agrees(d, d.index.credentials[n])
  }

  // What holds even between two writes: the index is as normalizeIndexPayload leaves it, its default is
  // empty or live, and every entry has its directory.
  ghost predicate Kept(d: Disk) {
    Normalize(d.index) == d.index && DefaultLive(d.index) && DirsAgree(d.index) && HasDirs(d)
  }

  lemma NormalizeIsIdempotent(ix: Index)
    ensures Normalize(Normalize(ix)) == Normalize(ix)
    ensures Normalize(ix) == ix <==>
      && (ix.defaultName == "" ==> "default" !in ix.credentials)
      && (forall n | n in ix.credentials ::
        ix.credentials[n].name == n && ix.credentials[n].isDefault == (n == ix.defaultName))
  {
    assert Normalize(Normalize(ix)).credentials == Normalize(ix).credentials;
    if ix.defaultName == "" ==> "default" !in ix.credentials {
      if forall n | n in ix.credentials ::
        ix.credentials[n].name == n && ix.credentials[n].isDefault == (n == ix.defaultName) {
        assert Normalize(ix).credentials == ix.credentials;
      }
    }
  }

  // ---- Writes to one directory ----

  ghost predicate Local(w: Write, dir: string, p: Payload) {
    match w
    case MakeDir(x) => x == dir
    case PutIdentity(x, q) => x == dir && q == p
    case PutFile(x, _, _) => x == dir
    case DropFile(x, _) => x == dir
    case _ => false
  }

  ghost predicate HasPayload(d: Disk, dir: string, p: Payload) {
    dir in d.dirs && d.dirs[dir].identity == Some(p)
  }

  // d differs from start only inside dir, whose identity file is the old one or p.
  ghost predicate Touched(start: Disk, d: Disk, dir: string, p: Payload) {
    && d.index == start.index
    && (forall x | x != dir :: x in d.dirs <==> x in start.dirs)
    && (forall x | x != dir && x in start.dirs :: d.dirs[x] == start.dirs[x])
    && (dir in start.dirs ==> dir in d.dirs)
    && (dir in start.dirs ==> d.dirs[dir].identity in {start.dirs[dir].identity, Some(p)})
  }

  lemma {:induction false} LocalWritesTouch(start: Disk, d: Disk, ws: seq<Write>, budget: nat, dir: string, p: Payload)
    requires forall w | w in ws :: Local(w, dir, p)
    requires Touched(start, d, dir, p)
    ensures Touched(start, After(d, ws, budget), dir, p)
    ensures HasPayload(d, dir, p) ==> HasPayload(After(d, ws, budget), dir, p)
    decreases |ws|
  {
    if ws != [] && budget > 0 {
      assert Local(ws[0], dir, p);
      assert forall w | w in ws[1..] :: w in ws;
      LocalWritesTouch(start, Do(d, ws[0]), ws[1..], budget - 1, dir, p);
    }
  }

  lemma FileWritesAreLocal(dir: string, p: Payload, jwt: string, keys: Keys)
    ensures forall w | w in FileWrites(dir, p, jwt, keys) :: Local(w, dir, p)
  {
    hide KeyFiles;
  }

  lemma FileWritesTouch(d: Disk, dir: string, p: Payload, jwt: string, keys: Keys, budget: nat)
    ensures Touched(d, After(d, FileWrites(dir, p, jwt, keys), budget), dir, p)
    ensures budget >= 2 ==> HasPayload(After(d, FileWrites(dir, p, jwt, keys), budget), dir, p)
  {
    hide KeyFiles, Local, Do;
    FileWritesAreLocal(dir, p, jwt, keys);
    LocalWritesTouch(d, d, FileWrites(dir, p, jwt, keys), budget, dir, p);
    if budget >= 2 {
      PayloadIsWritten(d, FileWrites(dir, p, jwt, keys), budget, dir, p);
    }
  }

  lemma PayloadIsWritten(d: Disk, ws: seq<Write>, budget: nat, dir: string, p: Payload)
    requires |ws| >= 2 && ws[0] == MakeDir(dir) && ws[1] == PutIdentity(dir, p) && budget >= 2
    requires forall w | w in ws :: Local(w, dir, p)
    ensures HasPayload(After(d, ws, budget), dir, p)
  {
    hide Local;
    var second := Do(Do(d, ws[0]), ws[1]);
    assert ws[1..][1..] == ws[2..];
    assert After(d, ws, budget) == After(second, ws[2..], budget - 2);
    assert forall w | w in ws[2..] :: w in ws;
    LocalWritesTouch(second, second, ws[2..], budget - 2, dir, p);
  }

  // ---- What the two kinds of step keep ----

  lemma TouchedKeeps(start: Disk, d: Disk, dir: string, p: Payload)
    requires Kept(start) && Touched(start, d, dir, p)
    ensures Kept(d)
  {
    hide Normalize;
    forall n | n in d.index.credentials ensures Holds(d, d.index.credentials[n].dirName) {
      assert Holds(start, start.index.credentials[n].dirName);
    }
  }

  lemma TouchedAgrees(start: Disk, d: Disk, dir: string, p: Payload, e: Entry)
    requires Agrees(start, e) && Touched(start, d, dir, p)
    requires e.dirName != dir || e.did == p.did
    ensures Agrees(d, e)
  {}

  lemma PutIndexKeeps(d: Disk, ix: Index)
    requires DefaultLive(ix) && DirsAgree(ix)
    requires forall n | n in ix.credentials :: Holds(d, ix.credentials[n].dirName)
    ensures Kept(Do(d, PutIndex(ix)))
  {
    NormalizeIsIdempotent(ix);
    var normal := Normalize(ix);
    forall n | n in normal.credentials ensures Holds(Do(d, PutIndex(ix)), normal.credentials[n].dirName) {
      assert Holds(d, ix.credentials[n].dirName);
    }
    forall m, n | m in normal.credentials && n in normal.credentials
      && normal.credentials[m].dirName == normal.credentials[n].dirName
      ensures normal.credentials[m].did == normal.credentials[n].did
    {
      assert ix.credentials[m].dirName == ix.credentials[n].dirName;
    }
  }

  lemma PutIndexHonest(d: Disk, ix: Index)
    requires forall n | n in ix.credentials :: Agrees(d, ix.credentials[n])
    ensures Honest(Do(d, PutIndex(ix)))
  {
    var normal := Normalize(ix);
    forall n | n in normal.credentials ensures Agrees(Do(d, PutIndex(ix)), normal.credentials[n]) {
      assert Agrees(d, ix.credentials[n]);
    }
  }

  lemma LastWrite(d: Disk, ws: seq<Write>, w: Write, budget: nat)
    ensures After(d, ws + [w], budget) == if budget > |ws| then Do(After(d, ws, budget), w) else After(d, ws, budget)
  {
    hide Do;
    AfterAppend(d, ws, [w], budget);
    if budget > |ws| {
      assert [w][1..] == [];
    }
  }

  // ---- save ----

  // Wherever save stops, the index and the directories still fit together.
  lemma SaveKeeps(d: Disk, input: SaveInput, details: Details, budget: nat)
    requires Kept(d) && SaveTarget(d, input).Ok?
    ensures Kept(After(d, SaveWrites(d, SaveTarget(d, input).value, input, details), budget))
  {
    hide Do, Normalize, Touched, FileWrites, SavedIndex;
    var dir, p := SaveTarget(d, input).value, Payload(input.did, details);
    var files := FileWrites(dir, p, input.jwt, input.keys);
    FileWritesTouch(d, dir, p, input.jwt, input.keys, budget);
    TouchedKeeps(d, After(d, files, budget), dir, p);
    LastWrite(d, files, PutIndex(SavedIndex(d.index, input.name, dir, input.did, details)), budget);
    if budget > |files| {
      FileWritesLength(dir, p, input.jwt, input.keys);
      SavedIndexKeeps(d, After(d, files, budget), input, details);
    }
  }

  lemma FileWritesLength(dir: string, p: Payload, jwt: string, keys: Keys)
    ensures |FileWrites(dir, p, jwt, keys)| >= 3
  {}

  lemma SavedIndexKeeps(d: Disk, written: Disk, input: SaveInput, details: Details)
    requires Kept(d) && SaveTarget(d, input).Ok? && Kept(written)
    requires Touched(d, written, SaveTarget(d, input).value, Payload(input.did, details))
    requires HasPayload(written, SaveTarget(d, input).value, Payload(input.did, details))
    ensures Kept(Do(written, PutIndex(SavedIndex(d.index, input.name, SaveTarget(d, input).value, input.did, details))))
  {
    hide Do, Normalize, Blank;
    var dir := SaveTarget(d, input).value;
    PutIndexKeeps(written, SavedIndex(d.index, input.name, dir, input.did, details));
  }

  // A save that completes leaves every identity file in agreement with the index.
  lemma SaveIsHonest(d: Disk, input: SaveInput, details: Details, budget: nat)
    requires Kept(d) && Honest(d) && SaveTarget(d, input).Ok?
    requires budget >= |SaveWrites(d, SaveTarget(d, input).value, input, details)|
    ensures Honest(After(d, SaveWrites(d, SaveTarget(d, input).value, input, details), budget))
  {
    hide Do, Normalize, FileWrites, Blank;
    var dir, p := SaveTarget(d, input).value, Payload(input.did, details);
    var files := FileWrites(dir, p, input.jwt, input.keys);
    var written := After(d, files, budget);
    FileWritesLength(dir, p, input.jwt, input.keys);
    FileWritesTouch(d, dir, p, input.jwt, input.keys, budget);
    LastWrite(d, files, PutIndex(SavedIndex(d.index, input.name, dir, input.did, details)), budget);
    forall n | n in d.index.credentials && n != input.name ensures Agrees(written, d.index.credentials[n]) {
      assert !DirTaken(d.index, input.name, dir, input.did);
      TouchedAgrees(d, written, dir, p, d.index.credentials[n]);
    }
    PutIndexHonest(written, SavedIndex(d.index, input.name, dir, input.did, details));
  }

  // The entry being saved already uses the directory, for another DID.
  predicate OverwritesSaved(d: Disk, input: SaveInput, dir: string) {
    && input.name in d.index.credentials
    && d.index.credentials[input.name].dirName == dir && d.index.credentials[input.name].did != input.did
  }

  // Stopping a save is harmless at every point exactly when it does not overwrite an entry's own directory.
  lemma SaveIsHonestThroughout(d: Disk, input: SaveInput, details: Details)
    requires Kept(d) && Honest(d) && SaveTarget(d, input).Ok?
    ensures var dir := SaveTarget(d, input).value;
      (forall budget: nat :: Honest(After(d, SaveWrites(d, dir, input, details), budget)))
        <==> !OverwritesSaved(d, input, dir)
  {
    hide After, SaveWrites, SaveTarget, Honest, Kept;
    var dir := SaveTarget(d, input).value;
    if OverwritesSaved(d, input, dir) {
      SaveOverwrites(d, input, details);
    } else {
      forall budget: nat ensures Honest(After(d, SaveWrites(d, dir, input, details), budget)) {
        SaveStopsHonest(d, input, details, budget);
      }
    }
  }

  lemma SaveOverwrites(d: Disk, input: SaveInput, details: Details)
    requires SaveTarget(d, input).Ok? && OverwritesSaved(d, input, SaveTarget(d, input).value)
    ensures !Honest(After(d, SaveWrites(d, SaveTarget(d, input).value, input, details), 2))
  {
    hide Do, Normalize, FileWrites, SaveTarget, SavedIndex;
    var dir, p := SaveTarget(d, input).value, Payload(input.did, details);
    FileWritesLength(dir, p, input.jwt, input.keys);
    FileWritesTouch(d, dir, p, input.jwt, input.keys, 2);
    LastWrite(d, FileWrites(dir, p, input.jwt, input.keys),
              PutIndex(SavedIndex(Normalize(d.index), input.name, dir, input.did, details)), 2);
    var written := After(d, FileWrites(dir, p, input.jwt, input.keys), 2);
    assert !Agrees(written, written.index.credentials[input.name]);
  }

  lemma SaveStopsHonest(d: Disk, input: SaveInput, details: Details, budget: nat)
    requires Kept(d) && Honest(d) && SaveTarget(d, input).Ok? && !OverwritesSaved(d, input, SaveTarget(d, input).value)
    ensures Honest(After(d, SaveWrites(d, SaveTarget(d, input).value, input, details), budget))
  {
    hide Do, Normalize, FileWrites, Blank, SavedIndex;
    var dir, p := SaveTarget(d, input).value, Payload(input.did, details);
    var files := FileWrites(dir, p, input.jwt, input.keys);
    if budget > |files| {
      SaveIsHonest(d, input, details, budget);
    } else {
      FileWritesTouch(d, dir, p, input.jwt, input.keys, budget);
      LastWrite(d, files, PutIndex(SavedIndex(d.index, input.name, dir, input.did, details)), budget);
      assert !DirTaken(d.index, input.name, dir, input.did);
      forall n | n in d.index.credentials ensures Agrees(After(d, files, budget), d.index.credentials[n]) {
        TouchedAgrees(d, After(d, files, budget), dir, p, d.index.credentials[n]);
      }
    }
  }
}
