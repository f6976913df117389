// Whole runs of the identity store: any sequence of its operations, each stopped after any of its writes.
module IdentityRuns {
  import opened Wrappers
  import opened Text
  import opened IdentityIndex
  import opened IdentityCommands
  import opened IdentityIntegrity
  import opened IdentityLoad
  import opened IdentityReplacement
  import opened Recovery

  // ---- Promotion ----

  lemma ArchivedAreTrimmed(names: seq<string>)
    ensures forall n | n in ArchivedSet(names) :: TrimSpace(n) == n && n != ""
  {
    hide TrimSpace;
    forall n | n in ArchivedSet(names) ensures TrimSpace(n) == n {
      var i :| 0 <= i < |names| && TrimSpace(names[i]) == n;
      TrimSpaceTrims(names[i]);
    }
  }

  // The default is the temporary name, written with spaces around it, so that it is not recognised.
  predicate DefaultOrphaned(ix: Index, finalName: string, tempName: string, archived: seq<string>) {
    && ix.defaultName == tempName && finalName != tempName
    && !Trimmed(tempName) && TrimSpace(tempName) !in ArchivedSet(archived)
  }

  // Promotion keeps the default live in every other case.
  lemma PromotionKeepsDefault(ix: Index, finalName: string, tempName: string, archived: seq<string>)
    requires DefaultLive(ix) && PromoteTarget(ix, finalName, tempName, archived).Ok?
    ensures DefaultLive(PromoteTarget(ix, finalName, tempName, archived).value)
      <==> !DefaultOrphaned(ix, finalName, tempName, archived)
  {
    hide TrimSpace, ArchivedSet, Trimmed;
    ArchivedAreTrimmed(archived);
    TrimSpaceTrims(tempName);
    TrimSpaceTrims(ix.defaultName);
    EmptyIsBlank();
  }

  lemma PromotionKeeps(d: Disk, finalName: string, tempName: string, archived: seq<string>)
    requires Kept(d) && PromoteTarget(d.index, finalName, tempName, archived).Ok?
    requires !DefaultOrphaned(d.index, finalName, tempName, archived)
    ensures var put := PutIndex(PromoteTarget(d.index, finalName, tempName, archived).value);
      Kept(Do(d, put)) && (Honest(d) ==> Honest(Do(d, put)))
  {
    hide Do, Normalize, TrimSpace, ArchivedSet, Blank;
    var ix := PromoteTarget(d.index, finalName, tempName, archived).value;
    PromotionKeepsDefault(d.index, finalName, tempName, archived);
    forall n | n in ix.credentials
      ensures Holds(d, ix.credentials[n].dirName) && (Honest(d) ==> Agrees(d, ix.credentials[n]))
    {
      var was := if n == finalName then tempName else n;
      assert Holds(d, d.index.credentials[was].dirName);
      assert Honest(d) ==> Agrees(d, d.index.credentials[was]);
    }
    PutIndexKeeps(d, ix);
    if Honest(d) {
      PutIndexHonest(d, ix);
    }
  }

  lemma SetDefaultKeeps(d: Disk, name: string)
    requires Kept(d) && name in d.index.credentials
    ensures var put := PutIndex(d.index.(defaultName := name));
      Kept(Do(d, put)) && (Honest(d) ==> Honest(Do(d, put)))
  {
    hide Do, Normalize;
    var ix := d.index.(defaultName := name);
    forall n | n in ix.credentials ensures Holds(d, ix.credentials[n].dirName) {
      assert Holds(d, d.index.credentials[n].dirName);
    }
    PutIndexKeeps(d, ix);
    if Honest(d) {
      PutIndexHonest(d, ix);
    }
  }

  // ---- Runs ----

  // Temporary names are sanitised, so they have no space around them.
  predicate Proper(c: Command) {
    c.Promote? ==> Trimmed(c.tempName)
  }

  // A command and the number of its writes that are carried out.
  datatype Step = Step(command: Command, stop: nat)

  function Run(d: Disk, steps: seq<Step>, domainOf: string -> Option<string>): Disk {
    if steps == [] then d
    else
      var before := Run(d, steps[..|steps| - 1], domainOf);
      var last := steps[|steps| - 1];
      After(before, Writes(before, last.command, domainOf), last.stop)
  }

  lemma OwnWritesKeep(d: Disk, c: Command, stop: nat, domainOf: string -> Option<string>)
    requires Kept(d) && Proper(c)
    ensures Kept(After(d, OwnWrites(d, c, domainOf), stop))
  {
    hide Do, Kept, Normalize, SaveTarget, SaveWrites, ReplaceTarget, ReplaceWrites, PromoteTarget, Trimmed, Admitted;
    KeptIsNormal(d);
    match c
    case Save(input, now) =>
      if SaveTarget(d, input).Ok? {
        SaveKeeps(d, input, SavedDetails(d, input, now, domainOf), stop);
      }
    case Replace(name, input, now) =>
      if ReplaceTarget(d, name, input, now, domainOf).Ok? {
        TargetIsAdmitted(d, name, input, now, domainOf);
        ReplaceKeeps(d, ReplaceTarget(d, name, input, now, domainOf).value, stop);
      }
    case Load(_) =>
    case SetDefault(name) =>
      if name in d.index.credentials {
        SetDefaultKeeps(d, name);
        OneWrite(d, PutIndex(d.index.(defaultName := name)), stop);
      }
    case Promote(finalName, tempName, archived) =>
      if PromoteTarget(d.index, finalName, tempName, archived).Ok? {
        PromotionKeeps(d, finalName, tempName, archived);
        OneWrite(d, PutIndex(PromoteTarget(d.index, finalName, tempName, archived).value), stop);
      }
  }

  // Each operation with its loads, stopped anywhere.
  lemma CommandKeeps(d: Disk, c: Command, stop: nat, domainOf: string -> Option<string>)
    requires Kept(d) && Proper(c)
    ensures Kept(After(d, Writes(d, c, domainOf), stop))
  {
    hide Kept, Proper, After, Writes, OwnWrites, Refreshed, Work;
    var own := LoadsOnlyRefresh(d, c, domainOf, stop);
    OwnWritesKeep(d, c, own, domainOf);
    RefreshedKeeps(After(d, OwnWrites(d, c, domainOf), own), After(d, Writes(d, c, domainOf), stop));
  }

  // In every state reached by any sequence of operations, each stopped anywhere, the index is in saved
  // form, its default is empty or live, entries that share a directory share the DID, and every entry's
  // directory exists with an identity file in it.
  lemma {:induction false} EveryRunKeeps(d: Disk, steps: seq<Step>, domainOf: string -> Option<string>)
    requires Kept(d) && forall s | s in steps :: Proper(s.command)
    ensures Kept(Run(d, steps, domainOf))
    decreases |steps|
  {
    hide Kept, Proper, Writes, After;
    if steps != [] {
      var before, last := steps[..|steps| - 1], steps[|steps| - 1];
      assert forall s | s in before :: s in steps;
      assert last in steps;
      EveryRunKeeps(d, before, domainOf);
      CommandKeeps(Run(d, before, domainOf), last.command, last.stop, domainOf);
    }
  }

  // Stopping the command early could leave an identity file that names another DID than its entry.
  ghost predicate Delicate(d: Disk, c: Command, domainOf: string -> Option<string>) {
    match c
    case Save(input, now) => SaveTarget(d, input).Ok? && OverwritesSaved(d, input, SaveTarget(d, input).value)
    case Replace(name, input, now) =>
      && ReplaceTarget(d, name, input, now, domainOf).Ok?
      && ReplaceTarget(d, name, input, now, domainOf).value.name in d.index.credentials
      && InPlace(d.index, ReplaceTarget(d, name, input, now, domainOf).value)
    case _ => false
  }

  lemma OwnWritesAreHonest(d: Disk, c: Command, stop: nat, domainOf: string -> Option<string>)
    requires Kept(d) && Honest(d) && Proper(c)
    requires Delicate(d, c, domainOf) ==> stop >= |OwnWrites(d, c, domainOf)|
    ensures Honest(After(d, OwnWrites(d, c, domainOf), stop))
  {
    hide Do, Kept, Honest, Normalize, SaveTarget, SaveWrites, ReplaceTarget, ReplaceWrites, PromoteTarget, Trimmed,
      InPlace, OverwritesSaved, DirectoryWrites, Linked, Foreign;
    KeptIsNormal(d);
    match c
    case Save(input, now) =>
      if SaveTarget(d, input).Ok? {
        var details := SavedDetails(d, input, now, domainOf);
        if OverwritesSaved(d, input, SaveTarget(d, input).value) {
          SaveIsHonest(d, input, details, stop);
        } else {
          SaveStopsHonest(d, input, details, stop);
        }
      }
    case Replace(name, input, now) =>
      if ReplaceTarget(d, name, input, now, domainOf).Ok? {
        ReplacementIsHonest(d, name, input, now, stop, domainOf);
      }
    case Load(_) =>
    case SetDefault(name) =>
      if name in d.index.credentials {
        SetDefaultKeeps(d, name);
        OneWrite(d, PutIndex(d.index.(defaultName := name)), stop);
      }
    case Promote(finalName, tempName, archived) =>
      if PromoteTarget(d.index, finalName, tempName, archived).Ok? {
        PromotionKeeps(d, finalName, tempName, archived);
        OneWrite(d, PutIndex(PromoteTarget(d.index, finalName, tempName, archived).value), stop);
      }
  }

  lemma CommandIsHonest(d: Disk, c: Command, stop: nat, domainOf: string -> Option<string>)
    requires Kept(d) && Honest(d) && Proper(c)
    requires Delicate(d, c, domainOf) ==> stop >= |Work(d, c, domainOf)|
    ensures Honest(After(d, Writes(d, c, domainOf), stop))
  {
    hide Kept, Honest, Proper, After, Writes, OwnWrites, Refreshed, Work, Delicate;
    var own := LoadsOnlyRefresh(d, c, domainOf, stop);
    OwnWritesKeep(d, c, own, domainOf);
    OwnWritesAreHonest(d, c, own, domainOf);
    RefreshedKeeps(After(d, OwnWrites(d, c, domainOf), own), After(d, Writes(d, c, domainOf), stop));
  }

  lemma ReplacementIsHonest(d: Disk, name: string, input: SaveInput, now: string, stop: nat,
                            domainOf: string -> Option<string>)
    requires Kept(d) && Honest(d) && ReplaceTarget(d, name, input, now, domainOf).Ok?
    requires Delicate(d, Replace(name, input, now), domainOf) ==>
      stop >= |ReplaceWrites(d.index, ReplaceTarget(d, name, input, now, domainOf).value)|
    ensures Honest(After(d, ReplaceWrites(d.index, ReplaceTarget(d, name, input, now, domainOf).value), stop))
  {
    hide Do, Kept, Normalize, ReplaceTarget, ReplaceWrites, InPlace, DirectoryWrites, Linked, Foreign, Agrees;
    var t := ReplaceTarget(d, name, input, now, domainOf).value;
    KeptIsNormal(d);
    TargetIsAdmitted(d, name, input, now, domainOf);
    if InPlace(d.index, t) {
      ReplaceLength(d.index, t);
      ReplaceIsHonest(d, t, stop);
    } else {
      ReplaceStopsHonest(d, t, stop);
    }
  }

  // ---- Trying a replacement again ----

  // The replacement is allowed on a disk with other handle fields too, for the same names.
  lemma RefreshedTarget(d: Disk, a: Disk, b: Disk, name: string, input: SaveInput, now: string, later: string,
                        domainOf: string -> Option<string>)
    requires Kept(d) && Kept(a) && Refreshed(a, b) && ReplaceTarget(d, name, input, now, domainOf).Ok?
    requires var t := ReplaceTarget(d, name, input, now, domainOf).value;
      && a.index.credentials.Keys == d.index.credentials.Keys && a.index.defaultName == d.index.defaultName
      && t.name in a.index.credentials && Linked(a.index, a.index.credentials[t.name]) == t.linked
      && !Foreign(a.index, t.linked, t.did, t.dir) && OthersAgree(a, t)
    ensures var again := ReplaceTarget(b, name, input, later, domainOf);
      again.Ok? && Kept(b) && Admitted(b.index, again.value) && OthersAgree(b, again.value)
  {
    hide Normalize, Refreshed, ReplaceTarget, Linked, Foreign, OthersAgree, Admitted, Kept;
    var t := ReplaceTarget(d, name, input, now, domainOf).value;
    RefreshedKeeps(a, b);
    KeptIsNormal(a);
    KeptIsNormal(b);
    KeptIsNormal(d);
    RefreshedLinks(a, b, t);
    TargetAgain(d, b, name, input, now, later, domainOf);
    TargetIsAdmitted(b, name, input, later, domainOf);
    SameOthers(b, t, ReplaceTarget(b, name, input, later, domainOf).value);
  }

  lemma RefreshedLinks(a: Disk, b: Disk, t: Replacement)
    requires Normalize(a.index) == a.index && Normalize(b.index) == b.index && Refreshed(a, b)
    requires t.name in a.index.credentials
    ensures b.index.credentials.Keys == a.index.credentials.Keys && b.index.defaultName == a.index.defaultName
    ensures Linked(b.index, b.index.credentials[t.name]) == Linked(a.index, a.index.credentials[t.name])
    ensures Foreign(b.index, t.linked, t.did, t.dir) ==> Foreign(a.index, t.linked, t.did, t.dir)
    ensures OthersAgree(a, t) ==> OthersAgree(b, t)
  {
    hide Normalize;
    if OthersAgree(a, t) {
      forall n | n in b.index.credentials && n !in t.linked ensures Agrees(b, b.index.credentials[n]) {
        assert Agrees(a, a.index.credentials[n]);
      }
    }
  }

  // Running the same replacement again from wherever it stopped is allowed and, once its work is done,
  // ends with every identity file in agreement with the index.
  lemma RetryHeals(d: Disk, name: string, input: SaveInput, now: string, later: string,
                   domainOf: string -> Option<string>, stop: nat, budget: nat)
    requires Kept(d) && Honest(d) && ReplaceTarget(d, name, input, now, domainOf).Ok?
    ensures var stopped := After(d, Writes(d, Replace(name, input, now), domainOf), stop);
      var again := Replace(name, input, later);
      && ReplaceTarget(stopped, name, input, later, domainOf).Ok?
      && (budget >= |Work(stopped, again, domainOf)| ==>
            Honest(After(stopped, Writes(stopped, again, domainOf), budget)))
  {
    hide Kept, Honest, Normalize, ReplaceWrites, After, Admitted, ReplaceTarget, OthersAgree, Refreshed, Writes, Work,
      Linked, Foreign, OwnWrites;
    var t := ReplaceTarget(d, name, input, now, domainOf).value;
    KeptIsNormal(d);
    TargetIsAdmitted(d, name, input, now, domainOf);
    var own := LoadsOnlyRefresh(d, Replace(name, input, now), domainOf, stop);
    ReplacementIsOwn(d, name, input, now, domainOf);
    ReplaceKeeps(d, t, own);
    StillAdmitted(d, t, own);
    OthersStillAgree(d, t, own);
    var stopped := After(d, Writes(d, Replace(name, input, now), domainOf), stop);
    RefreshedTarget(d, After(d, ReplaceWrites(d.index, t), own), stopped, name, input, now, later, domainOf);
    if budget >= |Work(stopped, Replace(name, input, later), domainOf)| {
      AgainIsHonest(stopped, name, input, later, domainOf, budget);
    }
  }

  lemma ReplacementIsOwn(d: Disk, name: string, input: SaveInput, now: string, domainOf: string -> Option<string>)
    requires Normalize(d.index) == d.index && ReplaceTarget(d, name, input, now, domainOf).Ok?
    ensures OwnWrites(d, Replace(name, input, now), domainOf)
      == ReplaceWrites(d.index, ReplaceTarget(d, name, input, now, domainOf).value)
  {
    hide ReplaceTarget, ReplaceWrites, Normalize;
  }

  lemma AgainIsHonest(d: Disk, name: string, input: SaveInput, now: string, domainOf: string -> Option<string>,
                      budget: nat)
    requires Kept(d) && ReplaceTarget(d, name, input, now, domainOf).Ok?
    requires var t := ReplaceTarget(d, name, input, now, domainOf).value; Admitted(d.index, t) && OthersAgree(d, t)
    requires budget >= |Work(d, Replace(name, input, now), domainOf)|
    ensures Honest(After(d, Writes(d, Replace(name, input, now), domainOf), budget))
  {
    hide Kept, Honest, Normalize, ReplaceWrites, After, Admitted, ReplaceTarget, OthersAgree, Refreshed, Writes, Work,
      OwnWrites, DirectoryWrites;
    var t := ReplaceTarget(d, name, input, now, domainOf).value;
    KeptIsNormal(d);
    ReplacementIsOwn(d, name, input, now, domainOf);
    var own := LoadsOnlyRefresh(d, Replace(name, input, now), domainOf, budget);
    ReplaceLength(d.index, t);
    ReplaceIsHonest(d, t, own);
    ReplaceKeeps(d, t, own);
    RefreshedKeeps(After(d, ReplaceWrites(d.index, t), own),
                   After(d, Writes(d, Replace(name, input, now), domainOf), budget));
  }

  // ---- Runs without a cut-off change of DID ----

  // Every delicate command did its work; its last load may have been stopped.
  ghost predicate Undisturbed(d: Disk, steps: seq<Step>, domainOf: string -> Option<string>) {
    forall i | 0 <= i < |steps| ::
      var before := Run(d, steps[..i], domainOf);
      Delicate(before, steps[i].command, domainOf) ==> steps[i].stop >= |Work(before, steps[i].command, domainOf)|
  }

  // Referential integrity: then every identity file also names its entry's DID.
  lemma {:induction false} UndisturbedRunsAreHonest(d: Disk, steps: seq<Step>, domainOf: string -> Option<string>)
    requires Kept(d) && Honest(d) && forall s | s in steps :: Proper(s.command)
    requires Undisturbed(d, steps, domainOf)
    ensures Honest(Run(d, steps, domainOf))
    decreases |steps|
  {
    hide Kept, Honest, Proper, Writes, After, Delicate, Undisturbed, Run;
    if steps == [] {
      EmptyRun(d, domainOf);
    } else {
      var before, last := steps[..|steps| - 1], steps[|steps| - 1];
      LastStep(d, steps, domainOf);
      assert forall s | s in before :: s in steps;
      assert last in steps;
      UndisturbedRunsAreHonest(d, before, domainOf);
      EveryRunKeeps(d, before, domainOf);
      CommandIsHonest(Run(d, before, domainOf), last.command, last.stop, domainOf);
    }
  }

  lemma EmptyRun(d: Disk, domainOf: string -> Option<string>)
    ensures Run(d, [], domainOf) == d
  {}

  lemma LastStep(d: Disk, steps: seq<Step>, domainOf: string -> Option<string>)
    requires steps != []
    ensures var before, last := Run(d, steps[..|steps| - 1], domainOf), steps[|steps| - 1];
      && Run(d, steps, domainOf) == After(before, Writes(before, last.command, domainOf), last.stop)
      && (Undisturbed(d, steps, domainOf) ==>
            && Undisturbed(d, steps[..|steps| - 1], domainOf)
            && (Delicate(before, last.command, domainOf) ==> last.stop >= |Work(before, last.command, domainOf)|))
  {
    hide After, Writes, Delicate;
    assert forall i | 0 <= i < |steps| - 1 :: steps[..|steps| - 1][..i] == steps[..i];
  }

  // ---- The default identity ----

  // Starting from nothing there is a default as soon as there is an identity.
  ghost predicate DefaultChosen(ix: Index) {
    "" !in ix.credentials && (ix.credentials == map[] || ix.defaultName in ix.credentials)
  }

  lemma {:induction false} DefaultStaysChosen(d: Disk, steps: seq<Step>, domainOf: string -> Option<string>)
    requires Kept(d) && DefaultChosen(d.index) && forall s | s in steps :: Proper(s.command)
    ensures DefaultChosen(Run(d, steps, domainOf).index)
    decreases |steps|
  {
    hide Kept, Proper, Writes, After, DefaultChosen;
    if steps != [] {
      var before, last := steps[..|steps| - 1], steps[|steps| - 1];
      assert forall s | s in before :: s in steps;
      assert last in steps;
      DefaultStaysChosen(d, before, domainOf);
      EveryRunKeeps(d, before, domainOf);
      CommandKeepsChoice(Run(d, before, domainOf), last.command, last.stop, domainOf);
    }
  }

  lemma OwnWritesKeepChoice(d: Disk, c: Command, stop: nat, domainOf: string -> Option<string>)
    requires Kept(d) && Proper(c) && DefaultChosen(d.index)
    ensures DefaultChosen(After(d, OwnWrites(d, c, domainOf), stop).index)
  {
    hide Do, Kept, Normalize, SaveTarget, SaveWrites, ReplaceTarget, ReplaceWrites, PromoteTarget,
      Trimmed, Admitted;
    KeptIsNormal(d);
    match c
    case Save(input, now) =>
      if SaveTarget(d, input).Ok? {
        SaveKeepsChoice(d, input, SavedDetails(d, input, now, domainOf), stop);
      }
    case Replace(name, input, now) =>
      if ReplaceTarget(d, name, input, now, domainOf).Ok? {
        TargetIsAdmitted(d, name, input, now, domainOf);
        StillAdmitted(d, ReplaceTarget(d, name, input, now, domainOf).value, stop);
      }
    case Load(_) =>
    case SetDefault(name) =>
      if name in d.index.credentials {
        var ix := d.index.(defaultName := name);
        OneWrite(d, PutIndex(ix), stop);
        PutIndexSaves(d, ix);
        NormalizeKeepsChoice(ix);
      }
    case Promote(finalName, tempName, archived) =>
      if PromoteTarget(d.index, finalName, tempName, archived).Ok? {
        var ix := PromoteTarget(d.index, finalName, tempName, archived).value;
        OneWrite(d, PutIndex(ix), stop);
        PutIndexSaves(d, ix);
        PromotionKeepsChoice(d.index, finalName, tempName, archived);
        NormalizeKeepsChoice(ix);
      }
  }

  lemma CommandKeepsChoice(d: Disk, c: Command, stop: nat, domainOf: string -> Option<string>)
    requires Kept(d) && Proper(c) && DefaultChosen(d.index)
    ensures DefaultChosen(After(d, Writes(d, c, domainOf), stop).index)
  {
    hide Kept, Proper, After, Writes, OwnWrites, Refreshed, Work, DefaultChosen;
    var own := LoadsOnlyRefresh(d, c, domainOf, stop);
    OwnWritesKeep(d, c, own, domainOf);
    OwnWritesKeepChoice(d, c, own, domainOf);
    RefreshedKeepsChoice(After(d, OwnWrites(d, c, domainOf), own), After(d, Writes(d, c, domainOf), stop));
  }

  lemma RefreshedKeepsChoice(a: Disk, b: Disk)
    requires Refreshed(a, b) && Kept(a) && DefaultChosen(a.index)
    ensures DefaultChosen(b.index)
  {
    hide Normalize;
    assert a.index.credentials.Keys == b.index.credentials.Keys;
    if a.index.credentials == map[] {
      assert b.index.credentials.Keys == {};
    }
  }

  lemma NormalizeKeepsChoice(ix: Index)
    requires DefaultChosen(ix)
    ensures DefaultChosen(Normalize(ix))
  {}

  lemma PromotionKeepsChoice(ix: Index, finalName: string, tempName: string, archived: seq<string>)
    requires DefaultLive(ix) && DefaultChosen(ix) && Trimmed(tempName)
    requires PromoteTarget(ix, finalName, tempName, archived).Ok?
    ensures DefaultChosen(PromoteTarget(ix, finalName, tempName, archived).value)
  {
    hide TrimSpace, ArchivedSet;
    ArchivedAreTrimmed(archived);
    TrimSpaceTrims(tempName);
    EmptyIsBlank();
  }

  lemma SaveKeepsChoice(d: Disk, input: SaveInput, details: Details, stop: nat)
    requires Kept(d) && DefaultChosen(d.index) && SaveTarget(d, input).Ok?
    ensures DefaultChosen(After(d, SaveWrites(d, SaveTarget(d, input).value, input, details), stop).index)
  {
    hide Do, Normalize, FileWrites, TrimSpace;
    var dir, p := SaveTarget(d, input).value, Payload(input.did, details);
    var files, ix := FileWrites(dir, p, input.jwt, input.keys),
      SavedIndex(d.index, input.name, dir, input.did, details);
    FileWritesTouch(d, dir, p, input.jwt, input.keys, stop);
    LastWrite(d, files, PutIndex(ix), stop);
    PutIndexSaves(After(d, files, stop), ix);
    EmptyIsBlank();
    NormalizeKeepsChoice(ix);
  }

  // ---- Starting from nothing ----

  const EMPTY: Disk := Disk(Index("", map[]), map[])

  // Every identity of a store built up by undisturbed operations can be read, with the DID of its entry,
  // and is listed; and the store has a current identity as soon as it has any.
  lemma StoreFromNothing(steps: seq<Step>, domainOf: string -> Option<string>)
    requires (forall s | s in steps :: Proper(s.command)) && Undisturbed(EMPTY, steps, domainOf)
    ensures var d := Run(EMPTY, steps, domainOf);
      && (forall n | n in d.index.credentials ::
            && Read(d, n, domainOf).Ok? && Read(d, n, domainOf).value.did == d.index.credentials[n].did
            && Summarize(d, d.index.credentials[n], domainOf).Ok?)
      && (d.index.credentials != map[] ==> d.index.defaultName != "" && d.index.defaultName in d.index.credentials)
  {
    hide Read, Summarize, Run, Proper, Undisturbed;
    EmptyIsKept();
    EveryRunKeeps(EMPTY, steps, domainOf);
    UndisturbedRunsAreHonest(EMPTY, steps, domainOf);
    DefaultStaysChosen(EMPTY, steps, domainOf);
    var d := Run(EMPTY, steps, domainOf);
    forall n | n in d.index.credentials
      ensures Read(d, n, domainOf).Ok? && Read(d, n, domainOf).value.did == d.index.credentials[n].did
      ensures Summarize(d, d.index.credentials[n], domainOf).Ok?
    {
      EntryCanBeRead(d, n, domainOf);
    }
  }

  lemma EmptyIsKept()
    ensures Kept(EMPTY) && Honest(EMPTY) && DefaultChosen(EMPTY.index)
  {
    NormalizeIsIdempotent(EMPTY.index);
  }

  lemma EntryCanBeRead(d: Disk, n: string, domainOf: string -> Option<string>)
    requires Kept(d) && Honest(d) && n in d.index.credentials
    ensures Read(d, n, domainOf).Ok? && Read(d, n, domainOf).value.did == d.index.credentials[n].did
    ensures Summarize(d, d.index.credentials[n], domainOf).Ok?
  {
    hide WithStoredHandles, MergedDetails, Blank;
    NormalizeIsIdempotent(d.index);
    assert Agrees(d, d.index.credentials[n]);
  }
}
