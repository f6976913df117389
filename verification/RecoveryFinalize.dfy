// Finalizing a recovery: promoting the recovered identity, loading it and committing the active name, or
// taking the promotion back.
module RecoveryFinalize {
  import opened Wrappers
  import opened Text
  import opened Naming
  import opened Sorting
  import opened IdentityIndex
  import opened IdentityIntegrity
  import opened IdentityRuns
  import opened IdentityReplacement
  import opened IdentityCommands
  import opened IdentityLoad
  import opened IdentityRoundTrip
  import opened Recovery
  import opened StoredHandleInput
  import opened RecoveryProofs
  import Handles

  // ---- FinalizeRecoveredHandle ----

  // Loading the identity finds handle fields other than those in its file.
  predicate RewritesIdentity(d: Disk, name: string, domainOf: string -> Option<string>) {
    match Read(d, name, domainOf)
    case Err(_) => false
    case Ok(r) => IdentityBackfill(d, r.name, r.details) != []
  }

  // The disk with the promoted index, before the load that follows.
  function Promoted(d: Disk, finalName: string, tempName: string, archived: seq<string>): Disk {
    match PromoteTarget(d.index, finalName, tempName, archived)
    case Err(_) => d
    case Ok(ix) => Do(d, PutIndex(ix))
  }

  lemma PromotedDisk(d: Disk, finalName: string, tempName: string, archived: seq<string>)
    requires Normalize(d.index) == d.index && PromoteTarget(d.index, finalName, tempName, archived).Ok?
    ensures var after := Promoted(d, finalName, tempName, archived);
      && after.dirs == d.dirs && Normalize(after.index) == after.index
      && finalName in after.index.credentials && tempName in d.index.credentials
      && after.index.credentials[finalName].dirName == d.index.credentials[tempName].dirName
      && after.index.credentials[finalName].did == d.index.credentials[tempName].did
      && after.index.credentials[finalName].details == d.index.credentials[tempName].details
  {
    hide TrimSpace, ArchivedSet, Blank;
    NormalizeIsIdempotent(PromoteTarget(d.index, finalName, tempName, archived).value);
  }

  // Under its new name the identity is read from the same file with the same entry.
  lemma PromotedIsRead(d: Disk, finalName: string, tempName: string, archived: seq<string>,
                       domainOf: string -> Option<string>)
    requires Kept(d) && PromoteTarget(d.index, finalName, tempName, archived).Ok?
    ensures var after := Promoted(d, finalName, tempName, archived);
      && Read(after, finalName, domainOf).Ok? && Read(after, finalName, domainOf).value.name == finalName
      && (RewritesIdentity(after, finalName, domainOf) <==> RewritesIdentity(d, tempName, domainOf))
      && (LoadWrites(d, tempName, domainOf) == [] ==> !RewritesIdentity(d, tempName, domainOf))
  {
    hide WithStoredHandles, MergedDetails, Promoted, PromoteTarget, Normalize, Refilled;
    KeptIsNormal(d);
    PromotedDisk(d, finalName, tempName, archived);
    assert Holds(d, d.index.credentials[tempName].dirName);
  }

  // Promotion succeeds exactly when enough writes are left: one for the index and those of the load, which
  // are two at most.
  lemma PromotedCanBeLoaded(d: Disk, finalName: string, tempName: string, archived: seq<string>,
                            domainOf: string -> Option<string>, budget: nat)
    requires Kept(d) && PromoteTarget(d.index, finalName, tempName, archived).Ok?
    ensures var after := Promoted(d, finalName, tempName, archived);
      var loads := LoadWrites(after, finalName, domainOf);
      var out := Promoting(d, finalName, tempName, archived, domainOf, budget);
      && |loads| <= 2 && (out.result.Ok? <==> budget >= 1 + |loads|)
      && out.disk == (if budget == 0 then d else After(after, loads, budget - 1))
      && out.budget == (if budget <= 1 + |loads| then 0 else budget - 1 - |loads|)
  {
    hide Do, Normalize, PromoteTarget, Read, LoadWrites, After;
    KeptIsNormal(d);
    PromotedIsRead(d, finalName, tempName, archived, domainOf);
    var after := Promoted(d, finalName, tempName, archived);
    OneWrite(d, PutIndex(PromoteTarget(d.index, finalName, tempName, archived).value), budget);
    LoadRefreshes(after, finalName, domainOf, budget);
  }

  // Writing the earlier index back restores the index, and the whole disk exactly when the load that was
  // part of the promotion did not rewrite the identity file.
  lemma RestoreUndoesPromotion(d: Disk, finalName: string, tempName: string, archived: seq<string>,
                               domainOf: string -> Option<string>)
    requires Kept(d) && PromoteTarget(d.index, finalName, tempName, archived).Ok?
    ensures var after := Promoted(d, finalName, tempName, archived);
      var loads := LoadWrites(after, finalName, domainOf);
      var restored := Do(After(after, loads, |loads|), PutIndex(d.index));
      && restored.index == d.index && Refreshed(d, restored)
      && (restored == d <==> !RewritesIdentity(d, tempName, domainOf))
  {
    hide Do, Normalize, PromoteTarget, Read, LoadWrites, After, Refreshed, Promoted, RewritesIdentity;
    KeptIsNormal(d);
    PromotedDisk(d, finalName, tempName, archived);
    PromotedIsRead(d, finalName, tempName, archived, domainOf);
    var after := Promoted(d, finalName, tempName, archived);
    var loads := LoadWrites(after, finalName, domainOf);
    var loaded := After(after, loads, |loads|);
    LoadRefreshes(after, finalName, domainOf, |loads|);
    PutIndexSaves(loaded, d.index);
    PutIndexSaves(after, d.index);
    DoRefreshed(after, loaded, PutIndex(d.index));
    assert Do(after, PutIndex(d.index)) == d;
    LoadedDirectories(after, finalName, domainOf);
  }

  // A completed load leaves the directories alone exactly when it does not rewrite the identity file.
  lemma LoadedDirectories(d: Disk, name: string, domainOf: string -> Option<string>)
    requires Read(d, name, domainOf).Ok?
    ensures var loads := LoadWrites(d, name, domainOf);
      After(d, loads, |loads|).dirs == d.dirs <==> !RewritesIdentity(d, name, domainOf)
  {
    hide Do, Normalize, Read, After, IdentityBackfill, IndexBackfill, Refreshed, SameEntries;
    var r := Read(d, name, domainOf).value;
    var first, second := IdentityBackfill(d, r.name, r.details), IndexBackfill(d, r.name, r.details);
    IdentityBackfillRefreshes(d, r.name, r.details);
    IndexBackfillRefreshes(d, r.name, r.details);
    AfterAppend(d, first, second, |first + second|);
    PartIsDone(d, first, |first + second|);
    var written := After(d, first, |first + second|);
    PartIsDone(written, second, |second|);
    IdentityBackfillShows(d, r.name, r.details);
    if second != [] {
      PutIndexSaves(written, second[0].index);
    }
  }

  lemma IdentityBackfillShows(d: Disk, name: string, reported: Details)
    ensures var part := IdentityBackfill(d, name, reported); part != [] ==> Do(d, part[0]).dirs != d.dirs
  {
    hide Normalize, Refilled;
    var part := IdentityBackfill(d, name, reported);
    if part != [] {
      assert Do(d, part[0]).dirs[part[0].dir] != d.dirs[part[0].dir];
    }
  }

  // How a finalize ends, for any number of writes. It succeeds exactly when the promotion could be loaded and
  // the active name needs no change or can be changed. A failure leaves the active name alone; before the
  // index is written it leaves the disk alone, and when the earlier index could be written back the index.
  // In every other failure the index stays promoted.
  lemma FinalizeOutcome(d: Disk, finalName: string, tempName: string, archived: seq<string>, before: string,
                        active: string, configOk: bool, budget: nat, domainOf: string -> Option<string>)
    requires Kept(d) && PromoteTarget(d.index, finalName, tempName, archived).Ok?
    ensures var after := Promoted(d, finalName, tempName, archived);
      var needed := 1 + |LoadWrites(after, finalName, domainOf)|;
      var moves := TrimSpace(before) in archived;
      var out := Finalize(d, active, finalName, tempName, archived, before, configOk, budget, domainOf);
      && (out.result.Ok? <==> budget >= needed && (configOk || !moves))
      && out.active == (if out.result.Ok? && moves then TrimSpace(finalName) else active)
      && (budget == 0 ==> out.disk == d)
      && (budget > needed && moves && !configOk ==>
            && out.disk.index == d.index && Refreshed(d, out.disk)
            && (out.disk == d <==> !RewritesIdentity(d, tempName, domainOf)))
      && (budget > 0 && !(budget > needed && moves && !configOk) ==> Refreshed(after, out.disk))
  {
    hide Do, Normalize, PromoteTarget, Promoting, LoadWrites, After, Refreshed, Promoted, RewritesIdentity, TrimSpace;
    KeptIsNormal(d);
    PromotedCanBeLoaded(d, finalName, tempName, archived, domainOf, budget);
    RestoreUndoesPromotion(d, finalName, tempName, archived, domainOf);
    var after := Promoted(d, finalName, tempName, archived);
    var loads := LoadWrites(after, finalName, domainOf);
    if budget > 0 {
      LoadRefreshes(after, finalName, domainOf, budget - 1);
      var out := Promoting(d, finalName, tempName, archived, domainOf, budget);
      OneWrite(out.disk, PutIndex(d.index), out.budget);
      if budget > |loads| {
        MoreThanEnough(after, loads, budget - 1);
      }
    }
  }

  // ---- From plan to finalize ----

  predicate LiveIn(name: string, ix: Index) {
    name in ix.credentials
  }

  // One recovery: the plan's temporary identity is saved and the recovery is finalized with writes enough.
  // If the active name is not archived or the configuration can be written, this succeeds: exactly the
  // excluded identities and the final name are live, the final name stands for the recovered identity, the
  // default is live, and an active name that was live before is live after. If the configuration cannot be
  // written, index and active name are what they were before the promotion; so is the whole disk exactly when
  // loading the temporary identity would not rewrite its file, as when the handles that were saved fit.
  lemma RecoveryEndToEnd(d: Disk, handle: string, didDomain: string, existing: seq<Summary>,
                         domainOf: string -> Option<string>, parse: string -> Option<int>, input: SaveInput,
                         now: string, saveBudget: nat, active: string, configOk: bool, budget: nat)
    requires Kept(d) && Lists(existing, d.index) && PlanFor(handle, didDomain, existing, domainOf, parse).Ok?
    requires var plan := PlanFor(handle, didDomain, existing, domainOf, parse).value;
      && plan.tempName !in d.index.credentials && input.name == plan.tempName
      && (forall n | n in Names(plan.candidates) :: Recognised(n))
    requires Saving(d, input, now, domainOf, saveBudget).result.Ok? && budget >= 4
    ensures var plan := PlanFor(handle, didDomain, existing, domainOf, parse).value;
      var saved := Saving(d, input, now, domainOf, saveBudget).disk;
      var archived, before := Names(plan.candidates), TrimSpace(active);
      var out := Finalize(saved, active, plan.finalName, plan.tempName, archived, before, configOk, budget, domainOf);
      if before !in archived || configOk then
        && out.result.Ok? && Kept(out.disk)
        && out.disk.index.credentials.Keys == (set n | n in Names(plan.excluded)) + {plan.finalName}
        && SaveTarget(d, input) == Ok(out.disk.index.credentials[plan.finalName].dirName)
        && out.disk.index.credentials[plan.finalName].did == input.did
        && LiveIn(out.disk.index.defaultName, out.disk.index)
        && (Recognised(d.index.defaultName) ==> out.disk.index.defaultName == Successor(plan, d.index.defaultName))
        && (LiveIn(before, d.index) ==> LiveIn(TrimSpace(out.active), out.disk.index))
        && out.active == (if before in archived then plan.finalName else active)
      else
        && out.result.Err? && out.active == active
        && out.disk.index == saved.index && Refreshed(saved, out.disk)
        && (out.disk == saved <==> !RewritesIdentity(saved, plan.tempName, domainOf))
        && (StoredFits(input.details.handle, input.details.fullHandle, domainOf(input.did)) ==> out.disk == saved)
  {
    hide TrimSpace, Kept, Lists, PlanFor, ArchivedSet, Names, Recognised, Normalize, SaveTarget, Saving, Promoted,
      Finalize, PromoteTarget, Refreshed, RewritesIdentity, StoredFits, LoadWrites;
    var plan := PlanFor(handle, didDomain, existing, domainOf, parse).value;
    var saved := Saving(d, input, now, domainOf, saveBudget).disk;
    var archived := Names(plan.candidates);
    PlanCoversIdentities(d, handle, didDomain, existing, domainOf, parse);
    SavedIsPromotable(d, plan, input, now, domainOf, saveBudget);
    TrimSpaceTrims(active);
    FinalizeOutcome(saved, plan.finalName, plan.tempName, archived, TrimSpace(active), active, configOk, budget,
                    domainOf);
    PromotedCanBeLoaded(saved, plan.finalName, plan.tempName, archived, domainOf, budget);
    if TrimSpace(active) !in archived || configOk {
      var out := Finalize(saved, active, plan.finalName, plan.tempName, archived, TrimSpace(active), configOk, budget,
                          domainOf);
      PromotedIsLive(saved, plan, SaveTarget(d, input).value, input.did, out.disk);
    } else if StoredFits(input.details.handle, input.details.fullHandle, domainOf(input.did)) {
      FittingInputIsQuiet(d, input, now, domainOf, saveBudget);
      PromotedIsRead(saved, plan.finalName, plan.tempName, archived, domainOf);
    }
  }

  // What saving the temporary identity leaves for the promotion.
  ghost predicate Promotable(saved: Disk, plan: Plan, dir: string, did: string) {
    var result := PromoteTarget(saved.index, plan.finalName, plan.tempName, Names(plan.candidates));
    && Kept(saved) && result.Ok? && Recognised(plan.finalName) && Trimmed(plan.tempName)
    && result.value.credentials.Keys == (set n | n in Names(plan.excluded)) + {plan.finalName}
    && plan.finalName in result.value.credentials
    && result.value.credentials[plan.finalName].dirName == dir && result.value.credentials[plan.finalName].did == did
    && result.value.defaultName != "" && result.value.defaultName in result.value.credentials
  }

  lemma SavedForPlan(d: Disk, plan: Plan, input: SaveInput, details: Details, budget: nat)
    requires Kept(d) && Fits(d.index, plan) && plan.tempName !in d.index.credentials && input.name == plan.tempName
    requires forall n | n in Names(plan.candidates) :: Recognised(n)
    requires SaveTarget(d, input).Ok? && budget >= |SaveWrites(d, SaveTarget(d, input).value, input, details)|
    ensures Promotable(After(d, SaveWrites(d, SaveTarget(d, input).value, input, details), budget), plan,
                       SaveTarget(d, input).value, input.did)
    ensures forall n :: n in d.index.credentials <==> n in Names(plan.candidates) || n in Names(plan.excluded)
    ensures var saved := After(d, SaveWrites(d, SaveTarget(d, input).value, input, details), budget);
      Recognised(d.index.defaultName) ==>
        PromoteTarget(saved.index, plan.finalName, plan.tempName, Names(plan.candidates)).value.defaultName
        == Successor(plan, d.index.defaultName)
  {
    hide Kept, Names, Recognised, Normalize, SaveTarget, SaveWrites, Do, After, Trimmed, TrimSpace, WithTemporary,
      PromoteTarget;
    if Recognised(d.index.defaultName) {
      KeptIsNormal(d);
      RecognisedIsTrimmed(d.index.defaultName);
      NamesSurvive(d.index, plan, SaveTarget(d, input).value, input.did, details, d.index.defaultName);
    }
    SaveKeeps(d, input, details, budget);
    SaveAddsTemporary(d, plan, input, details, budget);
    KeptIsNormal(d);
    PromotionOfPlan(d.index, plan, SaveTarget(d, input).value, input.did, details);
    RecognisedIsTrimmed(plan.tempName);
    TrimSpaceTrims(plan.tempName);
  }

  // The same with the loads inside a save.
  lemma SavedIsPromotable(d: Disk, plan: Plan, input: SaveInput, now: string, domainOf: string -> Option<string>,
                          budget: nat)
    requires Kept(d) && Fits(d.index, plan) && plan.tempName !in d.index.credentials && input.name == plan.tempName
    requires forall n | n in Names(plan.candidates) :: Recognised(n)
    requires Saving(d, input, now, domainOf, budget).result.Ok?
    ensures SaveTarget(d, input).Ok?
    ensures var saved := Saving(d, input, now, domainOf, budget).disk;
      && Promotable(saved, plan, SaveTarget(d, input).value, input.did)
      && (Recognised(d.index.defaultName) ==>
            PromoteTarget(saved.index, plan.finalName, plan.tempName, Names(plan.candidates)).value.defaultName
            == Successor(plan, d.index.defaultName))
    ensures forall n :: n in d.index.credentials <==> n in Names(plan.candidates) || n in Names(plan.excluded)
  {
    hide Kept, Names, Recognised, Normalize, SaveTarget, SaveWrites, SaveWork, Do, After, LoadWrites, Promotable,
      PromoteTarget, Fits, Refreshed, SavedDetails, Writes, Read;
    var dir, details := SaveTarget(d, input).value, SavedDetails(d, input, now, domainOf);
    WritesAreCarriedOut(d, Save(input, now), domainOf, budget);
    var own := LoadsOnlyRefresh(d, Save(input, now), domainOf, budget);
    SavedForPlan(d, plan, input, details, own);
    RefreshedIsPromotable(After(d, SaveWrites(d, dir, input, details), own),
                          Saving(d, input, now, domainOf, budget).disk, plan, dir, input.did);
  }

  lemma RefreshedIsPromotable(a: Disk, b: Disk, plan: Plan, dir: string, did: string)
    requires Promotable(a, plan, dir, did) && Refreshed(a, b)
    ensures Promotable(b, plan, dir, did)
    ensures var archived := Names(plan.candidates);
      PromoteTarget(b.index, plan.finalName, plan.tempName, archived).value.defaultName
      == PromoteTarget(a.index, plan.finalName, plan.tempName, archived).value.defaultName
  {
    hide Kept, Names, Recognised, Normalize, Trimmed, TrimSpace, ArchivedSet, Refreshed;
    RefreshedKeeps(a, b);
    RefreshedEntries(a, b);
  }

  // What a refreshed index has in common with the one before.
  lemma RefreshedEntries(a: Disk, b: Disk)
    requires Kept(a) && Refreshed(a, b)
    ensures b.index.defaultName == a.index.defaultName && b.index.credentials.Keys == a.index.credentials.Keys
    ensures forall n | n in a.index.credentials ::
      b.index.credentials[n].dirName == a.index.credentials[n].dirName
      && b.index.credentials[n].did == a.index.credentials[n].did
  {
    hide Normalize;
  }

  lemma PromotedIsLive(saved: Disk, plan: Plan, dir: string, did: string, left: Disk)
    requires Promotable(saved, plan, dir, did)
    requires Refreshed(Promoted(saved, plan.finalName, plan.tempName, Names(plan.candidates)), left)
    ensures var ix := PromoteTarget(saved.index, plan.finalName, plan.tempName, Names(plan.candidates)).value;
      && Kept(left) && left.index.credentials.Keys == (set n | n in Names(plan.excluded)) + {plan.finalName}
      && left.index.credentials[plan.finalName].dirName == dir && left.index.credentials[plan.finalName].did == did
      && left.index.defaultName == ix.defaultName && LiveIn(left.index.defaultName, left.index)
    ensures TrimSpace(plan.finalName) == plan.finalName
  {
    hide Kept, Names, Normalize, Do, PromoteTarget, ArchivedSet, Refreshed, TrimSpace, Trimmed, Recognised;
    var archived := Names(plan.candidates);
    var ix := PromoteTarget(saved.index, plan.finalName, plan.tempName, archived).value;
    RecognisedIsTrimmed(plan.finalName);
    PromotionKeeps(saved, plan.finalName, plan.tempName, archived);
    PutIndexSaves(saved, ix);
    NormalizedKeeps(ix);
    RefreshedKeeps(Promoted(saved, plan.finalName, plan.tempName, archived), left);
    RefreshedEntries(Promoted(saved, plan.finalName, plan.tempName, archived), left);
  }

  lemma NormalizedKeeps(ix: Index)
    requires ix.defaultName != ""
    ensures Normalize(ix).defaultName == ix.defaultName && Normalize(ix).credentials.Keys == ix.credentials.Keys
    ensures forall n | n in ix.credentials ::
      Normalize(ix).credentials[n].dirName == ix.credentials[n].dirName
      && Normalize(ix).credentials[n].did == ix.credentials[n].did
  {}

  // A save of handles that fit leaves nothing for a later load to write.
  lemma FittingInputIsQuiet(d: Disk, input: SaveInput, now: string, domainOf: string -> Option<string>, budget: nat)
    requires Kept(d) && Saving(d, input, now, domainOf, budget).result.Ok?
    requires StoredFits(input.details.handle, input.details.fullHandle, domainOf(input.did))
    ensures LoadWrites(Saving(d, input, now, domainOf, budget).disk, input.name, domainOf) == []
  {
    hide Kept, Normalize, SaveTarget, SaveWork, Do, After, LoadWrites, SavedDetails, StoredFits, Read;
    MoreThanEnough(d, Work(d, Save(input, now), domainOf), budget);
    var _ := SaveThenLoad(d, input, now, domainOf, budget);
  }

  // ---- A temporary identity that is left over ----

  // Two recoveries of one handle. If the first saved its temporary identity and was not promoted, the
  // second is refused when it comes to saving its own, whatever identities it was planned with: both
  // plans choose the same temporary name, and the two DIDs differ.
  lemma LeftoverBlocksRecovery(d: Disk, handle: string, didDomain: string, existing: seq<Summary>, later: seq<Summary>,
                               domainOf: string -> Option<string>, parse: string -> Option<int>,
                               first: SaveInput, now: string, budget: nat, second: SaveInput)
    requires Kept(d) && PlanFor(handle, didDomain, existing, domainOf, parse).Ok?
    requires PlanFor(handle, didDomain, later, domainOf, parse).Ok?
    requires first.name == PlanFor(handle, didDomain, existing, domainOf, parse).value.tempName
    requires Saving(d, first, now, domainOf, budget).result.Ok?
    requires second.name == PlanFor(handle, didDomain, later, domainOf, parse).value.tempName
    requires second.did != first.did && !Incomplete(second) && !second.replaceExisting
    ensures SaveTarget(Saving(d, first, now, domainOf, budget).disk, second) == Err(Conflict)
  {
    hide Kept, SaveWrites, SaveWork, After, Do, LoadWrites, Normalize, TrimSpace, Matching, Others, StableSort,
      Handles.Normalize, SanitizeIdentityName, SaveTarget, Refreshed, SavedDetails, Writes, Read, Incomplete;
    var plan := PlanFor(handle, didDomain, existing, domainOf, parse).value;
    FinalNameIsClean(Handles.Normalize(handle, didDomain).value);
    TempNameIsFixed(plan.finalName);
    CleanIsRecognised(plan.tempName);
    WritesAreCarriedOut(d, Save(first, now), domainOf, budget);
    var own := LoadsOnlyRefresh(d, Save(first, now), domainOf, budget);
    var dir, details := SaveTarget(d, first).value, SavedDetails(d, first, now, domainOf);
    var core := After(d, SaveWrites(d, dir, first, details), own);
    SaveAddsTemporary(d, plan, first, details, own);
    SaveKeeps(d, first, details, own);
    TakenNameIsRefused(d.index, plan, dir, first.did, details, core, Saving(d, first, now, domainOf, budget).disk,
                       second);
  }

  lemma TakenNameIsRefused(ix: Index, plan: Plan, dir: string, did: string, details: Details, core: Disk, left: Disk,
                           second: SaveInput)
    requires core.index == WithTemporary(ix, plan, dir, did, details) && Recognised(plan.tempName)
    requires Kept(core) && Refreshed(core, left)
    requires second.name == plan.tempName && second.did != did && !Incomplete(second) && !second.replaceExisting
    ensures SaveTarget(left, second) == Err(Conflict)
  {
    hide TrimSpace, PreferredDirName, DirTaken, Kept, Refreshed;
    RecognisedIsTrimmed(plan.tempName);
    RefreshedEntries(core, left);
    RefreshedKeeps(core, left);
    KeptIsNormal(left);
  }
}
