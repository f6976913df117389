// internal/identity/recover.go and FinalizeRecoveredHandle of internal/identity/service.go: planning the
// recovery of a handle, promoting the recovered identity and committing or taking back the result.
module Recovery {
  import opened Wrappers
  import opened Text
  import opened Naming
  import opened Sorting
  import opened Distinct
  import opened IdentityIndex
  import opened IdentityStore
  import Handles
  import StoredHandles

  // ---- The order of candidates ----

  // compareRFC3339; parse is time.Parse(time.RFC3339Nano, .).
  function Compare(left: string, right: string, parse: string -> Option<int>): int {
    var l, r := TrimSpace(left), TrimSpace(right);
    if l == "" && r == "" then 0
    else if l == "" then 1
    else if r == "" then -1
    else match (parse(l), parse(r))
      case (Some(x), Some(y)) => if x < y then -1 else if x > y then 1 else 0
      case _ => if Less(l, r) then -1 else if Less(r, l) then 1 else 0
  }

  // The less function of the sort: older first, ties by name.
  predicate SortsBefore(a: Summary, b: Summary, parse: string -> Option<int>) {
    var c := Compare(a.details.createdAt, b.details.createdAt, parse);
    c == -1 || (c == 0 && Less(a.name, b.name))
  }

  function CandidateOrder(parse: string -> Option<int>): (Summary, Summary) -> bool {
    (x: Summary, y: Summary) => !SortsBefore(y, x, parse)
  }

  // ---- The plan ----

  datatype Plan = Plan(finalName: string, tempName: string, candidates: seq<Summary>, excluded: seq<Summary>)

  // canonicalHandle
  function Canonical(raw: string): string {
    Lower(TrimSpace(raw))
  }

  predicate SameHandle(s: Summary, key: string, domainOf: string -> Option<string>) {
    Canonical(DefaultString(s.details.fullHandle, StoredHandles.DeriveFull(s.details.handle, domainOf(s.did)))) == key
  }

  function Matching(existing: seq<Summary>, key: string, domainOf: string -> Option<string>): seq<Summary> {
    if existing == [] then []
    else
      var last, before := existing[|existing| - 1], existing[..|existing| - 1];
      Matching(before, key, domainOf) + (if SameHandle(last, key, domainOf) then [last] else [])
  }

  function Others(existing: seq<Summary>, key: string, domainOf: string -> Option<string>): seq<Summary> {
    if existing == [] then []
    else
      var last, before := existing[|existing| - 1], existing[..|existing| - 1];
      Others(before, key, domainOf) + (if SameHandle(last, key, domainOf) then [] else [last])
  }

  function TempName(finalName: string): string {
    SanitizeIdentityName(finalName + "-recover-tmp")
  }

  function FinalName(target: Handles.Normalized): string {
    SanitizeIdentityName(if target.explicitDomain then target.full else target.local)
  }

  function PlanFor(handle: string, didDomain: string, existing: seq<Summary>, domainOf: string -> Option<string>,
                   parse: string -> Option<int>): Result<Plan, Error>
  {
    match Handles.Normalize(handle, didDomain)
    case None => Err(InvalidInput)
    case Some(target) =>
      var finalName, key := FinalName(target), Canonical(target.full);
      var excluded := Others(existing, key, domainOf);
      if finalName == "" then Err(InvalidInput)
      else if exists i | 0 <= i < |excluded| :: excluded[i].name == finalName then Err(Conflict)
      else Ok(Plan(finalName, TempName(finalName),
                   StableSort(Matching(existing, key, domainOf), CandidateOrder(parse)), excluded))
  }

  // buildRecoverPlan on the listed identities.
  method BuildRecoverPlan(handle: string, didDomain: string, existing: seq<Summary>, domainOf: string -> Option<string>,
                          parse: string -> Option<int>, clock: nat) returns (r: Result<Plan, Error>)
    ensures r == PlanFor(handle, didDomain, existing, domainOf, parse)
  {
    hide SameHandle, SanitizeIdentityName, Handles.Normalize;
    var target := Handles.Normalize(handle, didDomain);
    if target.None? {
      return Err(InvalidInput);
    }
    var finalName, key := FinalName(target.value), Canonical(target.value.full);
    if finalName == "" {
      return Err(InvalidInput);
    }
    var sameHandle, excluded: seq<Summary> := [], [];
    for i := 0 to |existing|
      invariant sameHandle == Matching(existing[..i], key, domainOf)
      invariant excluded == Others(existing[..i], key, domainOf)
    {
      assert existing[..i + 1][..i] == existing[..i];
      if SameHandle(existing[i], key, domainOf) {
        sameHandle := sameHandle + [existing[i]];
      } else {
        excluded := excluded + [existing[i]];
      }
    }
    assert existing[..|existing|] == existing;
    sameHandle := StableSort(sameHandle, CandidateOrder(parse));
    for i := 0 to |excluded|
      invariant forall j | 0 <= j < i :: excluded[j].name != finalName
    {
      if excluded[i].name == finalName {
        return Err(Conflict);
      }
    }
    var base := finalName + "-recover-tmp";
    FinalNameIsClean(target.value);
    TempNameIsFixed(finalName);
    var tempName := ChooseNamedIdentity(base, set i | 0 <= i < |existing| :: existing[i].name, base, clock);
    r := Ok(Plan(finalName, tempName, sameHandle, excluded));
  }

  lemma FinalNameIsClean(target: Handles.Normalized)
    ensures IsClean(FinalName(target)) && IsLower(FinalName(target))
  {
    SanitizedIsFixed(if target.explicitDomain then target.full else target.local);
  }

  lemma TempNameIsFixed(finalName: string)
    requires IsClean(finalName) && IsLower(finalName) && finalName != ""
    ensures TempName(finalName) == finalName + "-recover-tmp" && TempName(finalName) != ""
    ensures IsClean(TempName(finalName))
  {
    RecoveryNameIsFixed(finalName);
    SanitizedIsFixed(finalName + "-recover-tmp");
  }

  function Names(summaries: seq<Summary>): seq<string> {
    seq(|summaries|, i requires 0 <= i < |summaries| => summaries[i].name)
  }

  function TrimmedDIDs(summaries: seq<Summary>): seq<string> {
    seq(|summaries|, i requires 0 <= i < |summaries| => TrimSpace(summaries[i].did))
  }

  // OldOwnerDIDsInMergeOrder
  method OldOwnerDIDsInMergeOrder(candidates: seq<Summary>) returns (dids: seq<string>)
    ensures dids == FirstOccurrences(TrimmedDIDs(candidates))
  {
    dids := DistinctNonEmpty(TrimmedDIDs(candidates));
  }

  // ---- Promotion ----

  // The archived names as PromoteRecoveredHandle looks them up.
  function ArchivedSet(names: seq<string>): set<string> {
    set i | 0 <= i < |names| && TrimSpace(names[i]) != "" :: TrimSpace(names[i])
  }

  // The default is the temporary identity or an archived one.
  predicate DefaultMoves(ix: Index, tempName: string, archived: set<string>) {
    var d := TrimSpace(ix.defaultName);
    d != "" && (d == tempName || d in archived)
  }

  function PromotedIndex(ix: Index, finalName: string, tempName: string, archived: set<string>): Index
    requires tempName in ix.credentials
  {
    Index(if DefaultMoves(ix, tempName, archived) then finalName else ix.defaultName,
          (ix.credentials - archived - {tempName})[finalName :=
            ix.credentials[tempName].(name := finalName, isDefault := false)])
  }

  function PromoteTarget(ix: Index, finalName: string, tempName: string, archived: seq<string>): Result<Index, Error> {
    if Blank(finalName) || Blank(tempName) then Err(InvalidInput)
    else if tempName !in ix.credentials then Err(NotFound)
    else if finalName in ix.credentials && finalName != tempName && finalName !in ArchivedSet(archived)
      then Err(Conflict)
    else Ok(PromotedIndex(ix, finalName, tempName, ArchivedSet(archived)))
  }

  // PromoteRecoveredHandle: the promoted index is written, then the recovered identity is loaded.
  function Promoting(d: Disk, finalName: string, tempName: string, archived: seq<string>,
                     domainOf: string -> Option<string>, budget: nat): Outcome<Stored>
  {
    match PromoteTarget(Normalize(d.index), finalName, tempName, archived)
    case Err(e) => Outcome(d, budget, Err(e))
    case Ok(ix) => ThenLoading(d, [PutIndex(ix)], 1, finalName, domainOf, budget)
  }

  method CollectArchived(names: seq<string>) returns (archived: set<string>)
    ensures archived == ArchivedSet(names)
  {
    archived := {};
    for i := 0 to |names|
      invariant archived == ArchivedSet(names[..i])
    {
      var trimmed := TrimSpace(names[i]);
      ArchivedNext(names, i);
      if trimmed != "" {
        archived := archived + {trimmed};
      }
    }
    assert names[..|names|] == names;
  }

  // Whether the final name belongs to an identity that is neither temporary nor archived.
  method NameIsLive(ix: Index, finalName: string, tempName: string, archived: set<string>) returns (found: bool)
    ensures found <==> finalName in ix.credentials && finalName != tempName && finalName !in archived
  {
    var keys := ix.credentials.Keys;
    while keys != {}
      invariant keys <= ix.credentials.Keys
      invariant forall n | n in ix.credentials && n !in keys :: n == tempName || n in archived || n != finalName
      decreases |keys|
    {
      var n :| n in keys;
      if n != tempName && n !in archived && n == finalName {
        return true;
      }
      keys := keys - {n};
    }
    found := false;
  }

  // moved: whether the default now is the final name.
  method PromoteRecoveredHandle(m: Manager, finalName: string, tempName: string, archived: seq<string>)
    returns (r: Result<Stored, Error>, moved: bool)
    modifies m
    ensures Outcome(m.disk, m.budget, r)
      == Promoting(old(m.disk), finalName, tempName, archived, m.domainOf, old(m.budget))
    ensures moved == (r.Ok? && DefaultMoves(Normalize(old(m.disk).index), tempName, ArchivedSet(archived)))
  {
    hide Do, LoadWrites, Normalize, TrimSpace, ArchivedSet;
    if Blank(finalName) || Blank(tempName) {
      return Err(InvalidInput), false;
    }
    var ix := m.LoadIndex();
    if tempName !in ix.credentials {
      return Err(NotFound), false;
    }
    var tempEntry := ix.credentials[tempName];
    var archivedSet := CollectArchived(archived);
    var conflict := NameIsLive(ix, finalName, tempName, archivedSet);
    if conflict {
      return Err(Conflict), false;
    }
    var credentials := ix.credentials - archivedSet - {tempName};
    credentials := credentials[finalName := tempEntry.(name := finalName, isDefault := false)];
    var defaultName := ix.defaultName;
    var currentDefault := TrimSpace(defaultName);
    moved := false;
    if currentDefault != "" {
      if currentDefault == tempName || currentDefault in archivedSet {
        defaultName := finalName;
        moved := true;
      }
    }
    var ok := m.Perform(PutIndex(Index(defaultName, credentials)));
    if !ok {
      return Err(IOFailure), false;
    }
    r := m.Load(finalName);
    moved := moved && r.Ok?;
  }

  lemma ArchivedNext(names: seq<string>, i: nat)
    requires i < |names|
    ensures ArchivedSet(names[..i + 1]) ==
      ArchivedSet(names[..i]) + (if TrimSpace(names[i]) == "" then {} else {TrimSpace(names[i])})
  {
    var s, t := names[..i], names[..i + 1];
    forall x ensures x in ArchivedSet(t) <==>
      x in ArchivedSet(s) || (TrimSpace(names[i]) != "" && x == TrimSpace(names[i]))
    {
      if x in ArchivedSet(s) {
        var k :| 0 <= k < |s| && TrimSpace(s[k]) == x && x != "";
        assert t[k] == s[k];
      }
      if TrimSpace(names[i]) != "" && x == TrimSpace(names[i]) {
        assert t[i] == names[i];
      }
      if x in ArchivedSet(t) {
        var k :| 0 <= k < |t| && TrimSpace(t[k]) == x && x != "";
        assert k < i ==> s[k] == t[k];
      }
    }
  }

  // ---- FinalizeRecoveredHandle ----

  // What FinalizeRecoveredHandle leaves: the disk, identity.active of the configuration, and its result.
  datatype Finalized = Finalized(disk: Disk, active: string, result: Result<Stored, Error>)

  // configOk: whether the configuration can be written; budget: how many writes to the store succeed.
  function Finalize(disk: Disk, active: string, finalName: string, tempName: string, archived: seq<string>,
                    activeBefore: string, configOk: bool, budget: nat, domainOf: string -> Option<string>): Finalized
  {
    var out := Promoting(disk, finalName, tempName, archived, domainOf, budget);
    if out.result.Err? || TrimSpace(activeBefore) !in archived then Finalized(out.disk, active, out.result)
    else if configOk then Finalized(out.disk, TrimSpace(finalName), out.result)
    else Finalized(After(out.disk, [PutIndex(Normalize(disk.index))], out.budget), active, Err(IOFailure))
  }

  class Service {
    const manager: Manager
    // identity.active of the configuration file.
    var active: string

    constructor (manager: Manager, active: string)
      ensures this.manager == manager && this.active == active
    {
      this.manager, this.active := manager, active;
    }

    method FinalizeRecoveredHandle(finalName: string, tempName: string, archived: seq<string>, activeBefore: string,
                                   configOk: bool) returns (r: Result<Stored, Error>)
      modifies this, manager
      ensures Finalized(manager.disk, active, r) ==
        Finalize(old(manager.disk), old(active), finalName, tempName, archived, activeBefore, configOk,
                 old(manager.budget), manager.domainOf)
    {
      hide Normalize, TrimSpace, Promoting, After;
      var indexBefore := manager.LoadIndex();
      var moved;
      r, moved := PromoteRecoveredHandle(manager, finalName, tempName, archived);
      if r.Err? {
        return;
      }
      if TrimSpace(activeBefore) in archived {
        if !configOk {
          var _ := manager.Perform(PutIndex(indexBefore));
          return Err(IOFailure);
        }
        active := TrimSpace(finalName);
      }
    }
  }
}
