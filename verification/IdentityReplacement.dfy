// ReplaceIdentity of internal/identity/store.go, write by write.
module IdentityReplacement {
  import opened Wrappers
  import opened Text
  import opened Naming
  import opened IdentityIndex
  import opened IdentityIntegrity

  // What ReplaceIdentity has checked before its first write.
  ghost predicate Admitted(ix: Index, t: Replacement) {
    && t.name in ix.credentials
    && t.oldDir == ix.credentials[t.name].dirName
    && t.linked == Linked(ix, ix.credentials[t.name])
    && !Foreign(ix, t.linked, t.did, t.dir)
  }

  lemma TargetIsAdmitted(d: Disk, name: string, input: SaveInput, now: string, domainOf: string -> Option<string>)
    requires ReplaceTarget(d, name, input, now, domainOf).Ok?
    ensures Admitted(Normalize(d.index), ReplaceTarget(d, name, input, now, domainOf).value)
  {
    hide Normalize, Read, ReplacedDetails, Linked, Foreign, PreferredDirName, Blank;
  }

  function DirectoryWrites(t: Replacement): seq<Write> {
    FileWrites(t.dir, Payload(t.did, t.details), t.jwt, t.keys) + [DropFile(t.dir, "e2ee-state.json")]
  }

  function Removal(t: Replacement): seq<Write> {
    if t.oldDir != t.dir then [RemoveDir(t.oldDir)] else []
  }

  lemma WritesInThreeParts(d: Disk, ix: Index, t: Replacement, budget: nat)
    ensures var files, put := DirectoryWrites(t), PutIndex(Moved(ix, t));
      After(d, ReplaceWrites(ix, t), budget) ==
        if budget <= |files| then After(d, files, budget)
        else After(Do(After(d, files, budget), put), Removal(t), budget - |files| - 1)
  {
    hide Do, FileWrites, Moved;
    var files, put := DirectoryWrites(t), PutIndex(Moved(ix, t));
    assert ReplaceWrites(ix, t) == files + [put] + Removal(t);
    AfterAppend(d, files + [put], Removal(t), budget);
    LastWrite(d, files, put, budget);
  }

  lemma DirectoryWritesTouch(d: Disk, t: Replacement, budget: nat)
    ensures Touched(d, After(d, DirectoryWrites(t), budget), t.dir, Payload(t.did, t.details))
    ensures budget >= 2 ==> HasPayload(After(d, DirectoryWrites(t), budget), t.dir, Payload(t.did, t.details))
    ensures |DirectoryWrites(t)| >= 4
  {
    hide Do, Touched, HasPayload;
    var p := Payload(t.did, t.details);
    var files, drop := FileWrites(t.dir, p, t.jwt, t.keys), DropFile(t.dir, "e2ee-state.json");
    FileWritesLength(t.dir, p, t.jwt, t.keys);
    FileWritesTouch(d, t.dir, p, t.jwt, t.keys, budget);
    AfterAppend(d, files, [drop], budget);
    LocalWritesTouch(d, After(d, files, budget), [drop], Remaining(files, budget), t.dir, p);
  }

  // ---- Every prefix keeps every directory ----

  // The moved index fits directories in which the new one is written.
  lemma MovedKeeps(d: Disk, written: Disk, t: Replacement)
    requires Kept(d) && Admitted(d.index, t) && Kept(written) && written.index == d.index
    requires HasPayload(written, t.dir, Payload(t.did, t.details))
    ensures Kept(Do(written, PutIndex(Moved(d.index, t))))
  {
    hide Do, Normalize;
    var moved := Moved(d.index, t);
    forall n | n in moved.credentials ensures Holds(written, moved.credentials[n].dirName) {
      assert Holds(written, d.index.credentials[n].dirName);
    }
    forall m, n | m in moved.credentials && n in moved.credentials
      && moved.credentials[m].dirName == moved.credentials[n].dirName
      ensures moved.credentials[m].did == moved.credentials[n].did
    {
      assert d.index.credentials[m].dirName == d.index.credentials[n].dirName || m in t.linked || n in t.linked;
    }
    PutIndexKeeps(written, moved);
  }

  // No entry of the saved index is left in the directory that is removed last.
  lemma NothingLeftInOldDir(ix: Index, t: Replacement)
    requires Admitted(ix, t)
    ensures t.oldDir != t.dir ==>
      forall n | n in Normalize(Moved(ix, t)).credentials :: Normalize(Moved(ix, t)).credentials[n].dirName != t.oldDir
  {}

  lemma RemovalKeeps(d: Disk, t: Replacement, budget: nat)
    requires Kept(d)
    requires t.oldDir != t.dir ==> forall n | n in d.index.credentials :: d.index.credentials[n].dirName != t.oldDir
    ensures Kept(After(d, Removal(t), budget))
    ensures Honest(d) ==> Honest(After(d, Removal(t), budget))
  {
    hide Normalize;
    if Removal(t) != [] && budget > 0 {
      var gone := Do(d, RemoveDir(t.oldDir));
      assert After(d, Removal(t), budget) == gone;
      forall n | n in d.index.credentials
        ensures Holds(gone, d.index.credentials[n].dirName)
        ensures Agrees(d, d.index.credentials[n]) ==> Agrees(gone, d.index.credentials[n])
      {
        assert Holds(d, d.index.credentials[n].dirName);
      }
    }
  }

  // Wherever ReplaceIdentity stops, every entry still has its directory and identity file, the removed
  // directory included.
  lemma ReplaceKeeps(d: Disk, t: Replacement, budget: nat)
    requires Kept(d) && Admitted(d.index, t)
    ensures Kept(After(d, ReplaceWrites(d.index, t), budget))
  {
    hide Do, Normalize, Moved, Admitted, Kept, DirectoryWrites, ReplaceWrites, Removal, After;
    WritesInThreeParts(d, d.index, t, budget);
    DirectoryWritesTouch(d, t, budget);
    var written := After(d, DirectoryWrites(t), budget);
    TouchedKeeps(d, written, t.dir, Payload(t.did, t.details));
    if budget > |DirectoryWrites(t)| {
      MovedKeeps(d, written, t);
      NothingLeftInOldDir(d.index, t);
      PutIndexSaves(written, Moved(d.index, t));
      RemovalKeeps(Do(written, PutIndex(Moved(d.index, t))), t, budget - |DirectoryWrites(t)| - 1);
    }
  }

  lemma PutIndexSaves(d: Disk, ix: Index)
    ensures Do(d, PutIndex(ix)).index == Normalize(ix) && Do(d, PutIndex(ix)).dirs == d.dirs
  {}

  // ---- Agreement of the identity files ----

  ghost predicate OthersAgree(d: Disk, t: Replacement) {
    forall n | n in d.index.credentials && n !in t.linked :: Agrees(d, d.index.credentials[n])
  }

  // Completing the replacement restores the agreement of the linked entries whatever state they were in.
  lemma ReplaceIsHonest(d: Disk, t: Replacement, budget: nat)
    requires Kept(d) && Admitted(d.index, t) && OthersAgree(d, t)
    requires budget > |DirectoryWrites(t)|
    ensures Honest(After(d, ReplaceWrites(d.index, t), budget))
  {
    hide Do, Normalize, Moved, Admitted, Kept, DirectoryWrites, ReplaceWrites, Removal, After, Honest, OthersAgree;
    WritesInThreeParts(d, d.index, t, budget);
    DirectoryWritesTouch(d, t, budget);
    var written := After(d, DirectoryWrites(t), budget);
    TouchedKeeps(d, written, t.dir, Payload(t.did, t.details));
    MovedKeeps(d, written, t);
    MovedIsHonest(d, written, t);
    NothingLeftInOldDir(d.index, t);
    PutIndexSaves(written, Moved(d.index, t));
    RemovalKeeps(Do(written, PutIndex(Moved(d.index, t))), t, budget - |DirectoryWrites(t)| - 1);
  }

  lemma MovedIsHonest(d: Disk, written: Disk, t: Replacement)
    requires Admitted(d.index, t) && OthersAgree(d, t)
    requires Touched(d, written, t.dir, Payload(t.did, t.details))
    requires HasPayload(written, t.dir, Payload(t.did, t.details))
    ensures Honest(Do(written, PutIndex(Moved(d.index, t))))
  {
    hide Do, Normalize;
    var moved := Moved(d.index, t);
    forall n | n in moved.credentials ensures Agrees(written, moved.credentials[n]) {
      if n !in t.linked {
        TouchedAgrees(d, written, t.dir, Payload(t.did, t.details), d.index.credentials[n]);
      }
    }
    PutIndexHonest(written, moved);
  }

  // The new DID is written into a directory that an entry of the old one is using.
  predicate InPlace(ix: Index, t: Replacement)
    requires t.name in ix.credentials
  {
    t.did != ix.credentials[t.name].did && exists n | n in t.linked && n in ix.credentials ::
      ix.credentials[n].dirName == t.dir
  }

  // Stopping anywhere leaves every identity file in agreement with the index exactly when the DID stays
  // or the new directory is not one of the identity's own.
  lemma ReplaceIsHonestThroughout(d: Disk, t: Replacement)
    requires Kept(d) && Honest(d) && Admitted(d.index, t)
    ensures (forall budget: nat :: Honest(After(d, ReplaceWrites(d.index, t), budget))) <==> !InPlace(d.index, t)
  {
    hide After, ReplaceWrites, Honest, Kept;
    if InPlace(d.index, t) {
      InPlaceDisagrees(d, t);
    } else {
      forall budget: nat ensures Honest(After(d, ReplaceWrites(d.index, t), budget)) {
        ReplaceStopsHonest(d, t, budget);
      }
    }
  }

  lemma InPlaceDisagrees(d: Disk, t: Replacement)
    requires Kept(d) && Admitted(d.index, t) && InPlace(d.index, t)
    ensures !Honest(After(d, ReplaceWrites(d.index, t), 2))
  {
    hide Do, Normalize, Moved, DirectoryWrites, ReplaceWrites, Removal, After;
    WritesInThreeParts(d, d.index, t, 2);
    DirectoryWritesTouch(d, t, 2);
    var n :| n in t.linked && n in d.index.credentials && d.index.credentials[n].dirName == t.dir;
    assert d.index.credentials[n].did == d.index.credentials[t.name].did;
    var written := After(d, DirectoryWrites(t), 2);
    assert !Agrees(written, written.index.credentials[n]);
  }

  lemma ReplaceStopsHonest(d: Disk, t: Replacement, budget: nat)
    requires Kept(d) && Honest(d) && Admitted(d.index, t) && !InPlace(d.index, t)
    ensures Honest(After(d, ReplaceWrites(d.index, t), budget))
  {
    hide Do, Normalize, Moved, DirectoryWrites, ReplaceWrites, Removal, After;
    if budget > |DirectoryWrites(t)| {
      ReplaceIsHonest(d, t, budget);
    } else {
      WritesInThreeParts(d, d.index, t, budget);
      DirectoryWritesTouch(d, t, budget);
      var written := After(d, DirectoryWrites(t), budget);
      forall n | n in d.index.credentials ensures Agrees(written, d.index.credentials[n]) {
        assert Agrees(d, d.index.credentials[n]);
        assert n in t.linked ==> d.index.credentials[n].did == d.index.credentials[t.name].did;
        TouchedAgrees(d, written, t.dir, Payload(t.did, t.details), d.index.credentials[n]);
      }
    }
  }

  // ---- What a completed replacement has done ----

  // All aliases of the old identity move together, nobody else moves, and neither the old DID nor the
  // old directory is left in the index.
  lemma AliasesMoveTogether(d: Disk, t: Replacement, budget: nat)
    requires Kept(d) && Admitted(d.index, t) && budget >= |ReplaceWrites(d.index, t)|
    ensures var before, after := d.index, After(d, ReplaceWrites(d.index, t), budget);
      && after.index.credentials.Keys == before.credentials.Keys && after.index.defaultName == before.defaultName
      && (forall n | n in before.credentials ::
            var was, becomes := before.credentials[n], after.index.credentials[n];
            if was.did == before.credentials[t.name].did || was.dirName == t.oldDir
            then becomes.did == t.did && becomes.dirName == t.dir && becomes.details == t.details
            else becomes == was)
      && (t.did != before.credentials[t.name].did ==>
            forall n | n in after.index.credentials :: after.index.credentials[n].did != before.credentials[t.name].did)
  {
    hide Do, Normalize, Moved, Linked, DirectoryWrites, ReplaceWrites, After, Touched, HasPayload;
    ReplacedDisk(d, t, budget);
    MovedEntries(d.index, t);
  }

  // On disk the new directory is complete, the old one is gone and no other has changed.
  lemma ReplacedDirectories(d: Disk, t: Replacement, budget: nat)
    requires budget >= |ReplaceWrites(d.index, t)|
    ensures var after := After(d, ReplaceWrites(d.index, t), budget);
      && (t.oldDir != t.dir ==> t.oldDir !in after.dirs)
      && HasPayload(after, t.dir, Payload(t.did, t.details))
      && (forall x | x != t.dir && x != t.oldDir && x in d.dirs :: x in after.dirs && after.dirs[x] == d.dirs[x])
  {
    hide Do, Normalize, Moved, DirectoryWrites, ReplaceWrites, After;
    ReplacedDisk(d, t, budget);
    DirectoryWritesTouch(d, t, budget);
  }

  lemma ReplacedDisk(d: Disk, t: Replacement, budget: nat)
    requires budget >= |ReplaceWrites(d.index, t)|
    ensures var after, written := After(d, ReplaceWrites(d.index, t), budget), After(d, DirectoryWrites(t), budget);
      && after.index == Normalize(Moved(d.index, t))
      && after.dirs == (if t.oldDir != t.dir then written.dirs - {t.oldDir} else written.dirs)
      && budget >= 2
  {
    hide Do, Normalize, Moved, DirectoryWrites, After;
    WritesInThreeParts(d, d.index, t, budget);
    DirectoryWritesTouch(d, t, budget);
    ReplaceLength(d.index, t);
    var written := After(d, DirectoryWrites(t), budget);
    PutIndexSaves(written, Moved(d.index, t));
    RemovalEffect(Do(written, PutIndex(Moved(d.index, t))), t, budget - |DirectoryWrites(t)| - 1);
  }

  lemma ReplaceLength(ix: Index, t: Replacement)
    ensures |ReplaceWrites(ix, t)| == |DirectoryWrites(t)| + 1 + |Removal(t)|
  {
    hide FileWrites;
  }

  lemma RemovalEffect(d: Disk, t: Replacement, budget: nat)
    requires budget >= |Removal(t)|
    ensures After(d, Removal(t), budget) == if t.oldDir != t.dir then d.(dirs := d.dirs - {t.oldDir}) else d
  {}

  lemma MovedEntries(ix: Index, t: Replacement)
    requires Admitted(ix, t) && Normalize(ix) == ix
    ensures var after := Normalize(Moved(ix, t));
      && after.credentials.Keys == ix.credentials.Keys && after.defaultName == ix.defaultName
      && (forall n | n in ix.credentials ::
            var was, becomes := ix.credentials[n], after.credentials[n];
            if was.did == ix.credentials[t.name].did || was.dirName == t.oldDir
            then becomes.did == t.did && becomes.dirName == t.dir && becomes.details == t.details
            else becomes == was)
  {
    NormalizeIsIdempotent(ix);
  }

  // ---- Trying again after a stop ----

  lemma KeptIsNormal(d: Disk)
    requires Kept(d)
    ensures Normalize(d.index) == d.index && DefaultLive(d.index)
  {}

  // The index a stopped replacement leaves: the old one or the moved one.
  lemma StoppedIndex(d: Disk, t: Replacement, stop: nat)
    requires Kept(d) && Admitted(d.index, t)
    ensures After(d, ReplaceWrites(d.index, t), stop).index in {d.index, Normalize(Moved(d.index, t))}
  {
    hide Do, Normalize, Moved, Admitted, Kept, DirectoryWrites, ReplaceWrites;
    WritesInThreeParts(d, d.index, t, stop);
    DirectoryWritesTouch(d, t, stop);
    var written := After(d, DirectoryWrites(t), stop);
    if stop > |DirectoryWrites(t)| {
      PutIndexSaves(written, Moved(d.index, t));
      RemovalKeepsIndex(Do(written, PutIndex(Moved(d.index, t))), t, stop - |DirectoryWrites(t)| - 1);
    }
  }

  lemma RemovalKeepsIndex(d: Disk, t: Replacement, budget: nat)
    ensures After(d, Removal(t), budget).index == d.index
  {}

  // In either index the same names are linked and nothing foreign is in the way.
  lemma StillAdmitted(d: Disk, t: Replacement, stop: nat)
    requires Kept(d) && Admitted(d.index, t)
    ensures var ix := After(d, ReplaceWrites(d.index, t), stop).index;
      && t.name in ix.credentials && ix.credentials.Keys == d.index.credentials.Keys
        && ix.defaultName == d.index.defaultName
      && Linked(ix, ix.credentials[t.name]) == t.linked && !Foreign(ix, t.linked, t.did, t.dir)
  {
    hide Do, DirectoryWrites, ReplaceWrites, After, Moved, Normalize;
    StoppedIndex(d, t, stop);
    MovedEntries(d.index, t);
  }

  lemma TargetAgain(d: Disk, stopped: Disk, name: string, input: SaveInput, now: string, later: string,
                    domainOf: string -> Option<string>)
    requires Normalize(d.index) == d.index && Kept(stopped) && ReplaceTarget(d, name, input, now, domainOf).Ok?
    requires stopped.index.credentials.Keys == d.index.credentials.Keys
      && stopped.index.defaultName == d.index.defaultName
    requires var t := ReplaceTarget(d, name, input, now, domainOf).value;
      && t.name in stopped.index.credentials
      && Linked(stopped.index, stopped.index.credentials[t.name]) == t.linked
      && !Foreign(stopped.index, t.linked, t.did, t.dir)
    ensures var again := ReplaceTarget(stopped, name, input, later, domainOf);
      again.Ok? && again.value.linked == ReplaceTarget(d, name, input, now, domainOf).value.linked
  {
    hide Normalize, Linked, Foreign, ReplacedDetails, MergedDetails, WithStoredHandles, Blank, PreferredDirName;
    var t := ReplaceTarget(d, name, input, now, domainOf).value;
    assert Resolve(stopped.index, name) == Some(t.name);
    assert Holds(stopped, stopped.index.credentials[t.name].dirName);
  }

  lemma OthersStillAgree(d: Disk, t: Replacement, stop: nat)
    requires Kept(d) && Honest(d) && Admitted(d.index, t)
    ensures OthersAgree(After(d, ReplaceWrites(d.index, t), stop), t)
  {
    hide Do, DirectoryWrites, ReplaceWrites, After, Moved, Normalize;
    StoppedIndex(d, t, stop);
    MovedEntries(d.index, t);
    OthersKeepDirs(d, t, stop);
    var stopped := After(d, ReplaceWrites(d.index, t), stop);
    forall n | n in stopped.index.credentials && n !in t.linked ensures Agrees(stopped, stopped.index.credentials[n]) {
      assert Agrees(d, d.index.credentials[n]);
    }
  }

  lemma OthersKeepDirs(d: Disk, t: Replacement, stop: nat)
    ensures var stopped := After(d, ReplaceWrites(d.index, t), stop);
      forall x | x != t.dir && x != t.oldDir && x in d.dirs :: x in stopped.dirs && stopped.dirs[x] == d.dirs[x]
  {
    hide Do, DirectoryWrites, ReplaceWrites, Moved, Normalize;
    WritesInThreeParts(d, d.index, t, stop);
    DirectoryWritesTouch(d, t, stop);
    var written := After(d, DirectoryWrites(t), stop);
    if stop > |DirectoryWrites(t)| {
      PutIndexSaves(written, Moved(d.index, t));
      RemovalKeepsOthers(Do(written, PutIndex(Moved(d.index, t))), t, stop - |DirectoryWrites(t)| - 1);
    }
  }

  lemma RemovalKeepsOthers(d: Disk, t: Replacement, budget: nat)
    ensures var after := After(d, Removal(t), budget);
      forall x | x != t.oldDir && x in d.dirs :: x in after.dirs && after.dirs[x] == d.dirs[x]
  {}

  lemma SameOthers(d: Disk, t: Replacement, again: Replacement)
    requires OthersAgree(d, t) && again.linked == t.linked
    ensures OthersAgree(d, again)
  {}
}
