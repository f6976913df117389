// Recovering a handle from plan to promotion.
module RecoveryProofs {
  import opened Wrappers
  import opened Text
  import opened Naming
  import opened Sorting
  import opened IdentityIndex
  import opened IdentityIntegrity
  import opened IdentityRuns
  import opened IdentityReplacement
  import opened IdentityListing
  import opened IdentityLoad
  import opened Recovery
  import Handles

  // ---- The partition ----

  lemma {:induction false} PartitionIsExact(existing: seq<Summary>, key: string, domainOf: string -> Option<string>)
    ensures forall s :: s in Matching(existing, key, domainOf) <==> s in existing && SameHandle(s, key, domainOf)
    ensures forall s :: s in Others(existing, key, domainOf) <==> s in existing && !SameHandle(s, key, domainOf)
  {
    hide SameHandle;
    if existing != [] {
      var last, before := existing[|existing| - 1], existing[..|existing| - 1];
      PartitionIsExact(before, key, domainOf);
      assert existing == before + [last];
    }
  }

  // A name the plan's sets recognise: not blank and without space around it.
  predicate Recognised(name: string) {
    TrimSpace(name) == name && name != ""
  }

  lemma CleanIsRecognised(name: string)
    requires IsClean(name) && name != ""
    ensures Recognised(name)
  {
    TrimmedUnchanged(name);
  }

  // The plan is made from a complete listing.
  ghost predicate Lists(existing: seq<Summary>, ix: Index) {
    Ascending(Names(existing), ix.credentials.Keys)
  }

  // Such a listing is what List returns, about the disk it leaves.
  lemma ListMakesPlan(d: Disk, names: seq<string>, domainOf: string -> Option<string>, budget: nat)
    requires Kept(d) && Ascending(names, d.index.credentials.Keys)
    requires Listing(d, d.index, names, domainOf, budget).result.Ok?
    ensures var out := Listing(d, d.index, names, domainOf, budget);
      Kept(out.disk) && Lists(out.result.value, out.disk.index)
  {
    hide Normalize, Listing, Summarize, Unshared, Less;
    KeptIsNormal(d);
    ListIsComplete(d, names, domainOf, budget);
    var out := Listing(d, d.index, names, domainOf, budget);
    RefreshedKeeps(d, out.disk);
    assert Names(out.result.value) == names;
  }

  // What a plan says about the live identities it was made from: the candidates and the excluded ones
  // are all of them, none is both, and the two new names can be told apart.
  ghost predicate Fits(ix: Index, plan: Plan) {
    && Recognised(plan.finalName) && Recognised(plan.tempName) && plan.finalName != plan.tempName
    && plan.finalName !in Names(plan.excluded)
    && (forall n :: n in ix.credentials <==> n in Names(plan.candidates) || n in Names(plan.excluded))
    && (forall n :: !(n in Names(plan.candidates) && n in Names(plan.excluded)))
  }

  lemma PlanCoversIdentities(d: Disk, handle: string, didDomain: string, existing: seq<Summary>,
                             domainOf: string -> Option<string>, parse: string -> Option<int>)
    requires Kept(d) && Lists(existing, d.index) && PlanFor(handle, didDomain, existing, domainOf, parse).Ok?
    ensures Fits(d.index, PlanFor(handle, didDomain, existing, domainOf, parse).value)
  {
    hide SameHandle, Summarize, Handles.Normalize, Less, SanitizeIdentityName, Kept, TrimSpace, StableSort, Lists,
      Matching, Others;
    var plan := PlanFor(handle, didDomain, existing, domainOf, parse).value;
    var target := Handles.Normalize(handle, didDomain).value;
    var key := Canonical(target.full);
    FinalNameIsClean(target);
    TempNameIsFixed(plan.finalName);
    CleanIsRecognised(plan.finalName);
    CleanIsRecognised(plan.tempName);
    PartitionIsExact(existing, key, domainOf);
    SortKeepsElements(Matching(existing, key, domainOf), CandidateOrder(parse));
    ListedOnce(d.index, existing);
    forall n ensures n in Names(plan.candidates) <==> exists s ::
      s in existing && SameHandle(s, key, domainOf) && s.name == n {
      NamesOf(plan.candidates, n);
    }
    forall n ensures n in Names(plan.excluded) <==> exists s ::
      s in existing && !SameHandle(s, key, domainOf) && s.name == n {
      NamesOf(plan.excluded, n);
    }
  }

  lemma NamesOf(summaries: seq<Summary>, n: string)
    ensures n in Names(summaries) <==> exists s :: s in summaries && s.name == n
  {
    if n in Names(summaries) {
      var i :| 0 <= i < |summaries| && Names(summaries)[i] == n;
      assert summaries[i] in summaries;
    }
    if s :| s in summaries && s.name == n {
      var i :| 0 <= i < |summaries| && summaries[i] == s;
      assert Names(summaries)[i] == n;
    }
  }

  lemma ListedOnce(ix: Index, existing: seq<Summary>)
    requires Lists(existing, ix)
    ensures forall n :: n in ix.credentials <==> exists s :: s in existing && s.name == n
    ensures forall s, t | s in existing && t in existing && s.name == t.name :: s == t
  {
    hide Less, Names;
    forall n ensures n in ix.credentials <==> exists s :: s in existing && s.name == n {
      NamesOf(existing, n);
      assert n in ix.credentials <==> n in ix.credentials.Keys;
    }
    forall s, t | s in existing && t in existing && s.name == t.name ensures s == t {
      var i :| 0 <= i < |existing| && existing[i] == s;
      var j :| 0 <= j < |existing| && existing[j] == t;
      NamedOnce(existing, ix, i, j);
    }
  }

  lemma NamedOnce(existing: seq<Summary>, ix: Index, i: nat, j: nat)
    requires Lists(existing, ix) && i < |existing| && j < |existing| && existing[i].name == existing[j].name
    ensures i == j
  {
    hide Less;
    LessIsTotal(existing[i].name, existing[i].name);
    assert Names(existing)[i] == Names(existing)[j] == existing[i].name;
  }

  lemma ArchivedNames(names: seq<string>)
    ensures forall n | Recognised(n) && n in names :: n in ArchivedSet(names)
    ensures (forall n | n in names :: Recognised(n)) ==> ArchivedSet(names) == (set n | n in names)
    ensures forall n | n in ArchivedSet(names) :: Recognised(n)
  {
    hide TrimSpace;
    ArchivedAreTrimmed(names);
    forall n | Recognised(n) && n in names ensures n in ArchivedSet(names) {
      var i :| 0 <= i < |names| && names[i] == n;
      assert TrimSpace(names[i]) == n;
    }
    if forall n | n in names :: Recognised(n) {
      assert forall i | 0 <= i < |names| :: names[i] in names;
      assert ArchivedSet(names) == (set n | n in names);
    }
  }

  // ---- From plan to promotion ----

  // The index once the recovered identity has been saved under the temporary name.
  function WithTemporary(ix: Index, plan: Plan, dir: string, did: string, details: Details): Index {
    Normalize(SavedIndex(ix, plan.tempName, dir, did, details))
  }

  // That is what save leaves when it completes.
  lemma SaveAddsTemporary(d: Disk, plan: Plan, input: SaveInput, details: Details, budget: nat)
    requires Kept(d) && input.name == plan.tempName && SaveTarget(d, input).Ok?
    requires budget >= |SaveWrites(d, SaveTarget(d, input).value, input, details)|
    ensures After(d, SaveWrites(d, SaveTarget(d, input).value, input, details), budget).index
      == WithTemporary(d.index, plan, SaveTarget(d, input).value, input.did, details)
  {
    hide Do, Normalize, FileWrites, SaveTarget, SavedIndex;
    var dir, p := SaveTarget(d, input).value, Payload(input.did, details);
    KeptIsNormal(d);
    LastWrite(d, FileWrites(dir, p, input.jwt, input.keys),
              PutIndex(SavedIndex(d.index, input.name, dir, input.did, details)), budget);
    PutIndexSaves(After(d, FileWrites(dir, p, input.jwt, input.keys), budget),
                  SavedIndex(d.index, input.name, dir, input.did, details));
  }

  // When the temporary name was free, promotion is never refused. Afterwards exactly the excluded
  // identities and the final name are live if, and only if, no archived name is blank or has space
  // around it; the final name stands for the recovered identity, and there is a live default.
  lemma PlanCanBePromoted(d: Disk, handle: string, didDomain: string, existing: seq<Summary>,
                          domainOf: string -> Option<string>, parse: string -> Option<int>,
                          dir: string, did: string, details: Details)
    requires Kept(d) && Lists(existing, d.index) && PlanFor(handle, didDomain, existing, domainOf, parse).Ok?
    requires PlanFor(handle, didDomain, existing, domainOf, parse).value.tempName !in d.index.credentials
    ensures var plan := PlanFor(handle, didDomain, existing, domainOf, parse).value;
      var saved := WithTemporary(d.index, plan, dir, did, details);
      var archived := Names(plan.candidates);
      var result := PromoteTarget(saved, plan.finalName, plan.tempName, archived);
      && result.Ok?
      && ((result.value.credentials.Keys == (set n | n in Names(plan.excluded)) + {plan.finalName})
          <==> forall n | n in archived :: Recognised(n))
      && plan.finalName in result.value.credentials
      && result.value.credentials[plan.finalName] == Entry(plan.finalName, dir, did, details, false)
      && (forall n | n in result.value.credentials && n != plan.finalName ::
            n in d.index.credentials && result.value.credentials[n] == saved.credentials[n])
      && result.value.defaultName != "" && result.value.defaultName in result.value.credentials
  {
    hide TrimSpace, Kept, Lists, PlanFor, ArchivedSet, Names, Recognised;
    var plan := PlanFor(handle, didDomain, existing, domainOf, parse).value;
    PlanCoversIdentities(d, handle, didDomain, existing, domainOf, parse);
    KeptIsNormal(d);
    PromotionOfPlan(d.index, plan, dir, did, details);
  }

  // The same on the plan alone.
  lemma PromotionOfPlan(ix: Index, plan: Plan, dir: string, did: string, details: Details)
    requires Normalize(ix) == ix && DefaultLive(ix)
    requires Fits(ix, plan) && plan.tempName !in ix.credentials
    ensures var saved := WithTemporary(ix, plan, dir, did, details);
      var archived := Names(plan.candidates);
      var result := PromoteTarget(saved, plan.finalName, plan.tempName, archived);
      && result.Ok?
      && ((result.value.credentials.Keys == (set n | n in Names(plan.excluded)) + {plan.finalName})
          <==> forall n | n in archived :: Recognised(n))
      && plan.finalName in result.value.credentials
      && result.value.credentials[plan.finalName] == Entry(plan.finalName, dir, did, details, false)
      && (forall n | n in result.value.credentials && n != plan.finalName ::
            n in ix.credentials && result.value.credentials[n] == saved.credentials[n])
      && result.value.defaultName != "" && result.value.defaultName in result.value.credentials
  {
    hide TrimSpace, ArchivedSet, Names, Normalize, SavedIndex, Recognised;
    var saved, archived := WithTemporary(ix, plan, dir, did, details), Names(plan.candidates);
    ArchivedNames(archived);
    RecognisedIsTrimmed(plan.finalName);
    RecognisedIsTrimmed(plan.tempName);
    TemporaryIsSaved(ix, plan, dir, did, details);
    if saved.defaultName in ArchivedSet(archived) {
      RecognisedIsTrimmed(saved.defaultName);
    }
    PromotedKeys(saved, plan);
  }

  lemma RecognisedIsTrimmed(n: string)
    requires Recognised(n)
    ensures TrimSpace(n) == n && n != "" && !Blank(n)
  {}

  lemma TemporaryIsSaved(ix: Index, plan: Plan, dir: string, did: string, details: Details)
    requires Normalize(ix) == ix && DefaultLive(ix) && plan.tempName != "" && plan.tempName !in ix.credentials
    ensures var saved := WithTemporary(ix, plan, dir, did, details);
      && saved.credentials.Keys == ix.credentials.Keys + {plan.tempName}
      && saved.defaultName == Field(ix.defaultName, plan.tempName) && saved.defaultName in saved.credentials
      && saved.defaultName != ""
      && saved.credentials[plan.tempName].(isDefault := false) == Entry(plan.tempName, dir, did, details, false)
  {}

  lemma PromotedKeys(saved: Index, plan: Plan)
    requires Recognised(plan.finalName) && plan.tempName in saved.credentials && plan.finalName != plan.tempName
    requires plan.tempName !in Names(plan.candidates) && plan.tempName !in Names(plan.excluded)
    requires forall n | n != plan.tempName ::
      n in saved.credentials <==> n in Names(plan.candidates) || n in Names(plan.excluded)
    requires forall n :: !(n in Names(plan.candidates) && n in Names(plan.excluded))
    ensures var archived := Names(plan.candidates);
      var promoted := PromotedIndex(saved, plan.finalName, plan.tempName, ArchivedSet(archived));
      promoted.credentials.Keys == (set n | n in Names(plan.excluded)) + {plan.finalName}
      <==> forall n | n in archived :: Recognised(n)
  {
    hide TrimSpace, ArchivedSet, Names, Recognised;
    var archived := Names(plan.candidates);
    ArchivedNames(archived);
    var promoted := PromotedIndex(saved, plan.finalName, plan.tempName, ArchivedSet(archived));
    var expected := (set n | n in Names(plan.excluded)) + {plan.finalName};
    if forall n | n in archived :: Recognised(n) {
      assert promoted.credentials.Keys == expected;
    } else {
      var n :| n in archived && !Recognised(n);
      assert n in promoted.credentials.Keys && n !in expected;
    }
  }

  // The name that stands for n after the recovery.
  function Successor(plan: Plan, n: string): string {
    if n in Names(plan.candidates) then plan.finalName else n
  }

  // A default or active name that was live before has a live successor, which FinalizeRecoveredHandle
  // makes the active name and promotion the default.
  lemma NamesSurvive(ix: Index, plan: Plan, dir: string, did: string, details: Details, n: string)
    requires Normalize(ix) == ix && DefaultLive(ix)
    requires Fits(ix, plan) && plan.tempName !in ix.credentials
    requires n in ix.credentials && n != "" && forall m | m in Names(plan.candidates) :: Recognised(m)
    ensures var archived := Names(plan.candidates);
      var result := PromoteTarget(WithTemporary(ix, plan, dir, did, details), plan.finalName, plan.tempName, archived);
      result.Ok? && Successor(plan, n) in result.value.credentials
      && (n == ix.defaultName && TrimSpace(n) == n ==> result.value.defaultName == Successor(plan, n))
  {
    hide TrimSpace, ArchivedSet, Names, Normalize, SavedIndex, Recognised;
    var archived := Names(plan.candidates);
    PromotionOfPlan(ix, plan, dir, did, details);
    ArchivedNames(archived);
    RecognisedIsTrimmed(plan.tempName);
    TemporaryIsSaved(ix, plan, dir, did, details);
  }
}
