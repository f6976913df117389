// Which identities a recovery archives: buildRecoverPlan of internal/identity/recover.go, on the text of the
// handles, and from saving an identity to finding it.
module RecoveryCandidates {
  import opened Wrappers
  import opened Text
  import opened Sorting
  import opened IdentityIndex
  import opened IdentityIntegrity
  import opened IdentityCommands
  import opened IdentityListing
  import opened IdentityLoad
  import opened IdentityRoundTrip
  import opened Recovery
  import opened RecoveryProofs
  import opened StoredHandleInput
  import Handles
  import StoredHandles

  // The full handle of a listed identity, or else its bare handle at the domain of its DID.
  function KnownAs(s: Summary, domainOf: string -> Option<string>): string {
    var local := TrimSpace(Lower(s.details.handle));
    if TrimSpace(s.details.fullHandle) != "" then s.details.fullHandle
    else match domainOf(s.did)
      case Some(domain) =>
        if local != "" && Handles.NormalizeDomain(domain) != "" then local + "." + Handles.NormalizeDomain(domain)
        else ""
      case None => ""
  }

  // The two handles are the same but for letter case and the space around them.
  predicate SameText(one: string, other: string) {
    Lower(TrimSpace(one)) == Lower(TrimSpace(other))
  }

  // A listed identity is a candidate exactly when it is known by the handle that is recovered, and excluded
  // exactly when it is not; nothing else is either.
  lemma CandidatesByText(handle: string, didDomain: string, existing: seq<Summary>, domainOf: string -> Option<string>,
                         parse: string -> Option<int>, s: Summary)
    requires PlanFor(handle, didDomain, existing, domainOf, parse).Ok?
    ensures var plan := PlanFor(handle, didDomain, existing, domainOf, parse).value;
      && Handles.Normalize(handle, didDomain).Some?
      && var target := Handles.Normalize(handle, didDomain).value.full;
        && (s in plan.candidates <==> s in existing && SameText(KnownAs(s, domainOf), target))
        && (s in plan.excluded <==> s in existing && !SameText(KnownAs(s, domainOf), target))
  {
    hide SameHandle, Handles.Normalize, FinalName, TempName, StableSort, Matching, Others, KnownAs;
    var key := Canonical(Handles.Normalize(handle, didDomain).value.full);
    PartitionIsExact(existing, key, domainOf);
    SortKeepsElements(Matching(existing, key, domainOf), CandidateOrder(parse));
    SameHandleByText(s, key, domainOf);
  }

  lemma SameHandleByText(s: Summary, key: string, domainOf: string -> Option<string>)
    ensures SameHandle(s, key, domainOf) <==> Lower(TrimSpace(KnownAs(s, domainOf))) == key
  {
    hide TrimSpace, Lower, Handles.NormalizeDomain;
  }

  // An identity whose completed save had handles that fit, and a full handle, is in every plan that is made from
  // a complete list of the disk the save leaves: a candidate when its full handle is the one that is recovered,
  // as when both were given as the same text with a domain in it, and excluded otherwise.
  lemma SavedIsFound(d: Disk, input: SaveInput, now: string, domainOf: string -> Option<string>, saveBudget: nat,
                     names: seq<string>, listBudget: nat, handle: string, didDomain: string,
                     parse: string -> Option<int>)
    requires Kept(d) && Saving(d, input, now, domainOf, saveBudget).result.Ok?
    requires StoredFits(input.details.handle, input.details.fullHandle, domainOf(input.did))
    requires !Blank(StoredHandles.StoredFields(input.details.handle, input.details.fullHandle, domainOf(input.did)).1)
    requires var saved := Saving(d, input, now, domainOf, saveBudget).disk;
      && Normalize(saved.index) == saved.index && Ascending(names, saved.index.credentials.Keys)
      && Listing(saved, saved.index, names, domainOf, listBudget).result.Ok?
      && PlanFor(handle, didDomain, Listing(saved, saved.index, names, domainOf, listBudget).result.value, domainOf,
                 parse).Ok?
    ensures var saved := Saving(d, input, now, domainOf, saveBudget).disk;
      var existing := Listing(saved, saved.index, names, domainOf, listBudget).result.value;
      var plan := PlanFor(handle, didDomain, existing, domainOf, parse).value;
      var full := StoredHandles.StoredFields(input.details.handle, input.details.fullHandle, domainOf(input.did)).1;
      && Handles.Normalize(handle, didDomain).Some?
      && (input.name in Names(plan.candidates) <==> SameText(full, Handles.Normalize(handle, didDomain).value.full))
      && (input.name in Names(plan.excluded) <==> !SameText(full, Handles.Normalize(handle, didDomain).value.full))
      && (input.details.fullHandle == handle && '.' in TrimSpace(handle) ==> input.name in Names(plan.candidates))
  {
    hide Kept, Saving, Normalize, Listing, PlanFor, StoredHandles.StoredFields, StoredFits, Less, Listed, IsSaved,
      TrimSpace, Lower, Handles.Normalize, Names, Refreshed;
    var saved := Saving(d, input, now, domainOf, saveBudget).disk;
    var existing := Listing(saved, saved.index, names, domainOf, listBudget).result.value;
    var plan := PlanFor(handle, didDomain, existing, domainOf, parse).value;
    var full := StoredHandles.StoredFields(input.details.handle, input.details.fullHandle, domainOf(input.did)).1;
    SavedEntry(d, input, now, domainOf, saveBudget);
    ListIsComplete(saved, names, domainOf, listBudget);
    var s := ListedEntry(saved, input.name, names, existing, domainOf);
    CandidatesByText(handle, didDomain, existing, domainOf, parse, s);
    OnlyOneNamed(existing, names, plan.candidates, s);
    OnlyOneNamed(existing, names, plan.excluded, s);
    forall t | t in plan.candidates || t in plan.excluded ensures t in existing {
      CandidatesByText(handle, didDomain, existing, domainOf, parse, t);
    }
    if input.details.fullHandle == handle && '.' in TrimSpace(handle) {
      SameInput(input.details.handle, handle, domainOf(input.did), didDomain);
    }
  }

  lemma SavedEntry(d: Disk, input: SaveInput, now: string, domainOf: string -> Option<string>, budget: nat)
    requires Kept(d) && Saving(d, input, now, domainOf, budget).result.Ok?
    requires StoredFits(input.details.handle, input.details.fullHandle, domainOf(input.did))
    ensures var saved := Normalize(Saving(d, input, now, domainOf, budget).disk.index);
      && input.name in saved.credentials && saved.credentials[input.name].name == input.name
      && saved.credentials[input.name].details.fullHandle
        == StoredHandles.StoredFields(input.details.handle, input.details.fullHandle, domainOf(input.did)).1
  {
    hide Kept, SaveTarget, SaveWork, Do, After, LoadWrites, SavedDetails, StoredFits, Read, IsOnDisk,
      StoredHandles.StoredFields, HasPayload;
    MoreThanEnough(d, Work(d, Save(input, now), domainOf), budget);
    var _ := SaveThenLoad(d, input, now, domainOf, budget);
  }

  lemma ListedEntry(d: Disk, n: string, names: seq<string>, existing: seq<Summary>, domainOf: string -> Option<string>)
    returns (s: Summary)
    requires Listed(d, names, existing, domainOf) && IsComplete(Normalize(d.index), n) && n in names
    ensures s in existing && s.name == Normalize(d.index).credentials[n].name
      && s.details == Normalize(d.index).credentials[n].details && s.name in names
    ensures |existing| == |names| && forall i | 0 <= i < |names| :: existing[i].name == names[i]
  {
    hide Normalize, Summarize, Unshared;
    var i :| 0 <= i < |names| && names[i] == n;
    s := existing[i];
  }

  lemma OnlyOneNamed(existing: seq<Summary>, names: seq<string>, some: seq<Summary>, s: Summary)
    requires |existing| == |names| && forall i | 0 <= i < |names| :: existing[i].name == names[i]
    requires forall i, j | 0 <= i < j < |names| :: Less(names[i], names[j])
    requires s in existing
    ensures (forall t | t in some :: t in existing) ==> (s.name in Names(some) <==> s in some)
  {
    hide Less;
    NamesOf(some, s.name);
    forall t | t in some && t in existing && t.name == s.name ensures t == s {
      var i :| 0 <= i < |existing| && existing[i] == t;
      var j :| 0 <= j < |existing| && existing[j] == s;
      assert names[i] == names[j];
      LessIsTotal(names[i], names[j]);
    }
  }

  // One text with a domain in it is stored and recovered as the same full handle.
  lemma SameInput(handle: string, full: string, didDomain: Option<string>, default: string)
    requires '.' in TrimSpace(full) && Handles.Normalize(full, default).Some?
    ensures StoredHandles.StoredFields(handle, full, didDomain).1 == Handles.Normalize(full, default).value.full
  {
    hide TrimSpace, Handles.Normalize, StoredHandles.LocalPart;
    StoredFullByText(full, didDomain);
    Handles.DottedIgnoresDefault(full, default, StoredHandles.DidDefault(didDomain));
  }
}
