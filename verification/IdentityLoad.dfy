// Load of internal/identity/store.go with its backfill: what it keeps, and when it has nothing left to do.
module IdentityLoad {
  import opened Wrappers
  import opened StoredHandles
  import opened StoredHandleInput
  import opened StoredHandleLoads
  import opened IdentityIndex
  import opened IdentityIntegrity
  import opened IdentityReplacement

  // ---- What a load changes ----

  predicate SameButHandles(p: Details, q: Details) {
    q == p.(handle := q.handle, fullHandle := q.fullHandle)
  }

  predicate SameEntry(e: Entry, f: Entry) {
    f == e.(details := f.details) && SameButHandles(e.details, f.details)
  }

  ghost predicate SameEntries(i: Index, j: Index) {
    && j.defaultName == i.defaultName && j.credentials.Keys == i.credentials.Keys
    && forall n | n in i.credentials :: SameEntry(i.credentials[n], j.credentials[n])
  }

  ghost predicate SameDirectory(x: Directory, y: Directory) {
    && y.files == x.files && x.identity.Some? == y.identity.Some?
    && (x.identity.Some? ==>
          && y.identity.value.did == x.identity.value.did
          && SameButHandles(x.identity.value.details, y.identity.value.details))
  }

  // The second disk is the first with other handle fields.
  ghost predicate Refreshed(a: Disk, b: Disk) {
    && (Normalize(a.index) == a.index ==> Normalize(b.index) == b.index)
    && SameEntries(Normalize(a.index), Normalize(b.index))
    && b.dirs.Keys == a.dirs.Keys && forall x | x in a.dirs :: SameDirectory(a.dirs[x], b.dirs[x])
  }

  lemma RefreshedChains(a: Disk, b: Disk, c: Disk)
    ensures Refreshed(a, a)
    ensures Refreshed(a, b) && Refreshed(b, c) ==> Refreshed(a, c)
  {
    hide Normalize;
  }

  // Further writes, the same on both sides, leave the difference in the handle fields.
  lemma DoRefreshed(a: Disk, b: Disk, w: Write)
    requires Refreshed(a, b)
    ensures Refreshed(Do(a, w), Do(b, w))
  {
    hide Normalize;
    if w.PutIndex? {
      NormalizeIsIdempotent(w.index);
    }
  }

  lemma {:induction false} AfterRefreshed(a: Disk, b: Disk, ws: seq<Write>, budget: nat)
    requires Refreshed(a, b)
    ensures Refreshed(After(a, ws, budget), After(b, ws, budget))
    decreases |ws|
  {
    hide Refreshed, Do;
    if ws != [] && budget > 0 {
      DoRefreshed(a, b, ws[0]);
      AfterRefreshed(Do(a, ws[0]), Do(b, ws[0]), ws[1..], budget - 1);
    }
  }

  lemma RefreshedKeeps(a: Disk, b: Disk)
    requires Refreshed(a, b) && Kept(a)
    ensures Kept(b) && (Honest(a) ==> Honest(b))
  {
    hide Normalize;
    forall n | n in b.index.credentials
      ensures Holds(b, b.index.credentials[n].dirName) && (Honest(a) ==> Agrees(b, b.index.credentials[n]))
    {
      assert Holds(a, a.index.credentials[n].dirName) && (Honest(a) ==> Agrees(a, a.index.credentials[n]));
    }
    forall m, n | m in b.index.credentials && n in b.index.credentials
      && b.index.credentials[m].dirName == b.index.credentials[n].dirName
      ensures b.index.credentials[m].did == b.index.credentials[n].did
    {
      assert a.index.credentials[m].dirName == a.index.credentials[n].dirName;
    }
  }

  lemma IdentityBackfillRefreshes(d: Disk, name: string, reported: Details)
    ensures var part := IdentityBackfill(d, name, reported);
      |part| <= 1 && (part != [] ==> Refreshed(d, Do(d, part[0])) && Do(d, part[0]).index == d.index)
  {
    hide Normalize;
  }

  lemma IndexBackfillRefreshes(d: Disk, name: string, reported: Details)
    ensures var part := IndexBackfill(d, name, reported);
      |part| <= 1 && (part != [] ==> part[0].PutIndex? && SameEntries(Normalize(d.index), part[0].index))
  {
    hide Normalize;
  }

  // Such an index is in saved form already.
  lemma RefilledIndex(d: Disk, ix: Index)
    requires SameEntries(Normalize(d.index), ix)
    ensures Normalize(ix) == ix && Refreshed(d, Do(d, PutIndex(ix)))
  {
    NormalizeIsIdempotent(d.index);
    NormalizeIsIdempotent(ix);
  }

  // Wherever a load stops, nothing but handle fields has changed.
  lemma LoadRefreshes(d: Disk, name: string, domainOf: string -> Option<string>, stop: nat)
    ensures Refreshed(d, After(d, LoadWrites(d, name, domainOf), stop))
    ensures |LoadWrites(d, name, domainOf)| <= 2
  {
    hide Do, Normalize, Read, BackfillWrites, After, Refreshed;
    NothingAfter(d, [], stop);
    RefreshedChains(d, d, d);
    if Read(d, name, domainOf).Ok? {
      var r := Read(d, name, domainOf).value;
      BackfillRefreshes(d, r.name, r.details, stop);
    }
  }

  lemma BackfillRefreshes(d: Disk, name: string, reported: Details, stop: nat)
    ensures Refreshed(d, After(d, BackfillWrites(d, name, reported), stop)) && |BackfillWrites(d, name, reported)| <= 2
  {
    hide Do, Normalize, IdentityBackfill, IndexBackfill, After, Refreshed, SameEntries;
    var first, second := IdentityBackfill(d, name, reported), IndexBackfill(d, name, reported);
    IdentityBackfillRefreshes(d, name, reported);
    IndexBackfillRefreshes(d, name, reported);
    AfterAppend(d, first, second, stop);
    PartIsDone(d, first, stop);
    var written := After(d, first, stop);
    PartIsDone(written, second, Remaining(first, stop));
    RefreshedChains(d, written, After(written, second, Remaining(first, stop)));
    if second != [] {
      RefilledIndex(written, second[0].index);
    }
  }

  lemma PartIsDone(d: Disk, part: seq<Write>, stop: nat)
    requires |part| <= 1
    ensures After(d, part, stop) == if part == [] || stop == 0 then d else Do(d, part[0])
    ensures Refreshed(d, d)
  {
    hide Do, Refreshed;
    RefreshedChains(d, d, d);
  }

  // So the invariant of the store and the agreement of the identity files are kept.
  lemma LoadKeeps(d: Disk, name: string, domainOf: string -> Option<string>, stop: nat)
    requires Kept(d)
    ensures var after := After(d, LoadWrites(d, name, domainOf), stop);
      && Kept(after) && (Honest(d) ==> Honest(after))
      && after.index.credentials.Keys == d.index.credentials.Keys && after.index.defaultName == d.index.defaultName
  {
    hide Do, Normalize, LoadWrites, After, Honest, HasDirs, DirsAgree;
    LoadRefreshes(d, name, domainOf, stop);
    RefreshedKeeps(d, After(d, LoadWrites(d, name, domainOf), stop));
  }

  // The index entries and the directories of the others stay as they are.
  ghost predicate OthersStay(a: Disk, b: Disk, name: string) {
    var i, j := Normalize(a.index), Normalize(b.index);
    && i.credentials.Keys == j.credentials.Keys && name in i.credentials
    && (forall n | n in i.credentials && n != name :: j.credentials[n] == i.credentials[n])
    && (forall x | x in a.dirs && x != i.credentials[name].dirName :: x in b.dirs && b.dirs[x] == a.dirs[x])
  }

  lemma LoadLeavesOthers(d: Disk, name: string, domainOf: string -> Option<string>, stop: nat)
    requires name in Normalize(d.index).credentials
    ensures OthersStay(d, After(d, LoadWrites(d, name, domainOf), stop), name)
  {
    hide Do, Normalize, IdentityBackfill, IndexBackfill, After, Refilled, WithStoredHandles, MergedDetails;
    var ws := LoadWrites(d, name, domainOf);
    NothingAfter(d, [], stop);
    if Read(d, name, domainOf).Ok? {
      var reported := Read(d, name, domainOf).value.details;
      var first, second := IdentityBackfill(d, name, reported), IndexBackfill(d, name, reported);
      IdentityBackfillLeaves(d, name, reported);
      AfterAppend(d, first, second, stop);
      PartIsDone(d, first, stop);
      IndexBackfillLeaves(d, After(d, first, stop), name, reported);
      PartIsDone(After(d, first, stop), second, Remaining(first, stop));
    }
  }

  lemma IdentityBackfillLeaves(d: Disk, name: string, reported: Details)
    requires name in Normalize(d.index).credentials
    ensures var part := IdentityBackfill(d, name, reported);
      |part| <= 1 && (part != [] ==> OthersStay(d, Do(d, part[0]), name) && Do(d, part[0]).index == d.index)
  {
    hide Normalize;
  }

  lemma IndexBackfillLeaves(d: Disk, b: Disk, name: string, reported: Details)
    requires name in Normalize(d.index).credentials && b.index == d.index && OthersStay(d, b, name)
    ensures var part := IndexBackfill(d, name, reported);
      |part| <= 1 && (part != [] ==> OthersStay(d, Do(b, part[0]), name))
  {
    hide Refilled, Normalize, SameEntries;
    var part := IndexBackfill(d, name, reported);
    IndexBackfillRefreshes(d, name, reported);
    if part != [] {
      RefilledIndex(d, part[0].index);
    }
  }

  // ---- When a load writes nothing ----

  function Given(value: string): Option<string> {
    if value == "" then None else Some(value)
  }

  // The handle fields of an identity as the backfill sees them.
  function HandleRecord(p: Details, e: Details): Record {
    Record(Given(p.handle), Given(p.fullHandle), e.handle, e.fullHandle)
  }

  lemma RefilledRecord(p: Details, e: Details, reported: Details)
    ensures HandleRecord(Refilled(p, reported), Refilled(e, reported))
      == Backfilled(HandleRecord(p, e), (reported.handle, reported.fullHandle))
    ensures Backfilled(HandleRecord(p, e), (reported.handle, reported.fullHandle)) == HandleRecord(p, e)
      <==> Refilled(p, reported) == p && Refilled(e, reported) == e
  {}

  lemma ReportedRecord(p: Details, e: Details, didDomain: Option<string>)
    ensures var reported := Twice(MergedDetails(p, e), didDomain);
      (reported.handle, reported.fullHandle) == Reported(HandleRecord(p, e), didDomain)
  {
    hide StoredFields;
  }

  function PayloadOf(d: Disk, n: string): Payload
    requires n in d.index.credentials && Holds(d, d.index.credentials[n].dirName)
  {
    d.dirs[d.index.credentials[n].dirName].identity.value
  }

  function DidOf(d: Disk, n: string): string
    requires n in d.index.credentials && Holds(d, d.index.credentials[n].dirName)
  {
    Field(PayloadOf(d, n).did, d.index.credentials[n].did)
  }

  // The handle fields stored for an identity.
  function RecordOf(d: Disk, n: string): Record
    requires n in d.index.credentials && Holds(d, d.index.credentials[n].dirName)
  {
    HandleRecord(PayloadOf(d, n).details, d.index.credentials[n].details)
  }

  // After a completed load the next one reads the same and writes nothing exactly when it is quiet by the
  // handle fields.
  lemma SecondLoad(d: Disk, n: string, domainOf: string -> Option<string>, budget: nat)
    requires Kept(d) && n in d.index.credentials && Holds(d, d.index.credentials[n].dirName)
    requires budget >= |LoadWrites(d, n, domainOf)|
    ensures var after := After(d, LoadWrites(d, n, domainOf), budget);
      Read(after, n, domainOf) == Read(d, n, domainOf) && LoadWrites(after, n, domainOf) == []
      <==> IsQuiet(RecordOf(d, n), domainOf(DidOf(d, n)))
  {
    hide Do, Normalize, Read, BackfillWrites, After, Refilled, WithStoredHandles, MergedDetails, Kept, Reported,
      Backfilled;
    var p, e := PayloadOf(d, n).details, d.index.credentials[n].details;
    var domain := domainOf(DidOf(d, n));
    EntryIsRead(d, n, domainOf);
    var reported := Twice(MergedDetails(p, e), domain);
    var after := After(d, BackfillWrites(d, n, reported), budget);
    LoadKeeps(d, n, domainOf, budget);
    RefilledOnDisk(d, n, reported, budget);
    EntryIsRead(after, n, domainOf);
    var p1, e1 := Refilled(p, reported), Refilled(e, reported);
    var again := Twice(MergedDetails(p1, e1), domain);
    NothingToRefill(after, n, again);
    ReportedRecord(p, e, domain);
    RefilledRecord(p, e, reported);
    ReportedRecord(p1, e1, domain);
    RefilledRecord(p1, e1, again);
    SameButReported(p, e, reported, domain);
  }

  // Load applies storedHandleFields twice to what it reads.
  function Twice(details: Details, didDomain: Option<string>): Details {
    WithStoredHandles(WithStoredHandles(details, didDomain), didDomain)
  }

  lemma SameButReported(p: Details, e: Details, reported: Details, domain: Option<string>)
    requires reported == Twice(MergedDetails(p, e), domain)
    ensures var again := Twice(MergedDetails(Refilled(p, reported), Refilled(e, reported)), domain);
      again == reported <==> (again.handle, again.fullHandle) == (reported.handle, reported.fullHandle)
  {
    hide StoredFields;
  }

  // For an orderly DID domain the second load of an identity reads the same and writes nothing exactly when
  // the stored handle fields, normalised once, fit.
  lemma SecondLoadExactly(d: Disk, n: string, domainOf: string -> Option<string>, budget: nat)
    requires Kept(d) && n in d.index.credentials && Holds(d, d.index.credentials[n].dirName)
    requires Orderly(domainOf(DidOf(d, n))) && budget >= |LoadWrites(d, n, domainOf)|
    ensures var after := After(d, LoadWrites(d, n, domainOf), budget);
      var raw, domain := RawFields(RecordOf(d, n)), domainOf(DidOf(d, n));
      var (h, f) := StoredFields(raw.0, raw.1, domain);
      Read(after, n, domainOf) == Read(d, n, domainOf) && LoadWrites(after, n, domainOf) == []
      <==> StoredFits(h, f, domain)
  {
    hide Kept, After, LoadWrites, Read, StoredFits, StoredFields, Orderly, IsQuiet;
    SecondLoad(d, n, domainOf, budget);
    QuietExactlyIfFits(RecordOf(d, n), domainOf(DidOf(d, n)));
  }

  // Whatever the domain, fields that fit as they are stored suffice, and so do well-formed ones.
  lemma SecondLoadWritesNothing(d: Disk, n: string, domainOf: string -> Option<string>, budget: nat)
    requires Kept(d) && n in d.index.credentials && Holds(d, d.index.credentials[n].dirName)
    requires var raw, domain := RawFields(RecordOf(d, n)), domainOf(DidOf(d, n));
      StoredFits(raw.0, raw.1, domain) || PlainFields(raw.0, raw.1, domain)
    requires budget >= |LoadWrites(d, n, domainOf)|
    ensures var after := After(d, LoadWrites(d, n, domainOf), budget);
      Read(after, n, domainOf) == Read(d, n, domainOf) && LoadWrites(after, n, domainOf) == []
  {
    hide Kept, After, LoadWrites, Read, StoredFits, PlainFields, IsQuiet;
    SecondLoad(d, n, domainOf, budget);
    var raw, domain := RawFields(RecordOf(d, n)), domainOf(DidOf(d, n));
    if PlainFields(raw.0, raw.1, domain) {
      WellFormedFieldsFit(raw.0, raw.1, domain);
    }
    SecondLoadIsQuiet(RecordOf(d, n), domain);
  }

  // What Read returns for a live name.
  lemma EntryIsRead(d: Disk, n: string, domainOf: string -> Option<string>)
    requires Kept(d) && n in d.index.credentials && Holds(d, d.index.credentials[n].dirName)
    ensures var details := MergedDetails(PayloadOf(d, n).details, d.index.credentials[n].details);
      Read(d, n, domainOf) == Ok(Stored(n, d.index.credentials[n].dirName, DidOf(d, n),
                                        Twice(details, domainOf(DidOf(d, n))), d.index.defaultName == n))
  {
    hide WithStoredHandles, MergedDetails, Normalize;
    KeptIsNormal(d);
  }

  // What a load reports, field by field: the identity file comes first, and the index stands in for what the
  // file does not have. The handle fields are normalised twice.
  lemma LoadReports(d: Disk, n: string, domainOf: string -> Option<string>)
    requires Kept(d) && n in d.index.credentials && Holds(d, d.index.credentials[n].dirName)
    ensures Read(d, n, domainOf).Ok?
    ensures var e := d.index.credentials[n];
      var p, r := d.dirs[e.dirName].identity.value, Read(d, n, domainOf).value;
      var domain := domainOf(r.did);
      var (h, f) := StoredFields(if p.details.handle != "" then p.details.handle else e.details.handle,
                                 if p.details.fullHandle != "" then p.details.fullHandle else e.details.fullHandle,
                                 domain);
      && r.name == n && r.dirName == e.dirName && r.isDefault == (n == d.index.defaultName)
      && r.did == (if p.did != "" then p.did else e.did)
      && r.details.uniqueID == (if p.details.uniqueID != "" then p.details.uniqueID else e.details.uniqueID)
      && r.details.userID == (if p.details.userID != "" then p.details.userID else e.details.userID)
      && r.details.displayName == (if p.details.displayName != "" then p.details.displayName else e.details.displayName)
      && r.details.createdAt == (if p.details.createdAt != "" then p.details.createdAt else e.details.createdAt)
      && (r.details.handle, r.details.fullHandle) == StoredFields(h, f, domain)
  {
    hide StoredFields, Normalize;
    EntryIsRead(d, n, domainOf);
  }

  lemma RefilledOnDisk(d: Disk, n: string, reported: Details, budget: nat)
    requires Kept(d) && n in d.index.credentials && Holds(d, d.index.credentials[n].dirName)
    requires budget >= |BackfillWrites(d, n, reported)|
    ensures var after := After(d, BackfillWrites(d, n, reported), budget);
      && n in after.index.credentials && Holds(after, after.index.credentials[n].dirName)
      && PayloadOf(after, n) == PayloadOf(d, n).(details := Refilled(PayloadOf(d, n).details, reported))
      && after.index.credentials[n] ==
         d.index.credentials[n].(details := Refilled(d.index.credentials[n].details, reported))
  {
    hide Normalize, Refilled, After, Do, Refreshed, SameEntries;
    KeptIsNormal(d);
    var first, second := IdentityBackfill(d, n, reported), IndexBackfill(d, n, reported);
    IdentityBackfillRefreshes(d, n, reported);
    IndexBackfillRefreshes(d, n, reported);
    AfterAppend(d, first, second, budget);
    PartIsDone(d, first, budget);
    var written := After(d, first, budget);
    PartIsDone(written, second, Remaining(first, budget));
    PayloadIsRefilled(d, n, reported);
    if second != [] {
      RefilledIndex(written, second[0].index);
      PutIndexSaves(written, second[0].index);
    }
  }

  lemma PayloadIsRefilled(d: Disk, n: string, reported: Details)
    requires Normalize(d.index) == d.index && n in d.index.credentials && Holds(d, d.index.credentials[n].dirName)
    ensures var part := IdentityBackfill(d, n, reported);
      part != [] ==>
        HasPayload(Do(d, part[0]), d.index.credentials[n].dirName,
                   PayloadOf(d, n).(details := Refilled(PayloadOf(d, n).details, reported)))
  {
    hide Normalize, Refilled;
  }

  lemma NothingToRefill(d: Disk, n: string, reported: Details)
    requires Kept(d) && n in d.index.credentials && Holds(d, d.index.credentials[n].dirName)
    ensures BackfillWrites(d, n, reported) == [] <==>
      && Refilled(PayloadOf(d, n).details, reported) == PayloadOf(d, n).details
      && Refilled(d.index.credentials[n].details, reported) == d.index.credentials[n].details
  {
    hide Refilled, Normalize;
    KeptIsNormal(d);
  }
}
