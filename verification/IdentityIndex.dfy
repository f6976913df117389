// internal/identity/layout.go and the decisions of internal/identity/store.go: the identity index, the
// identity directories, and which writes each operation makes in which order.
module IdentityIndex {
  import opened Wrappers
  import opened Text
  import opened Naming
  import opened StoredHandles

  datatype Error = InvalidInput | NotFound | Conflict | NoDefault | Unreadable | IOFailure

  datatype Details = Details(uniqueID: string, userID: string, displayName: string,
                             handle: string, fullHandle: string, createdAt: string)

  datatype Entry = Entry(name: string, dirName: string, did: string, details: Details, isDefault: bool)

  datatype Index = Index(defaultName: string, credentials: map<string, Entry>)

  // identity.json; a field that is not in the file is "".
  datatype Payload = Payload(did: string, details: Details)

  datatype Directory = Directory(identity: Option<Payload>, files: map<string, string>)

  // What is on disk: index.json and the identity directories by name.
  datatype Disk = Disk(index: Index, dirs: map<string, Directory>)

  // ---- The index ----

  // The entry under its own name, with the flag it should have.
  function Flagged(e: Entry, name: string, chosen: string): Entry {
    e.(name := name, isDefault := chosen == name)
  }

  // normalizeIndexPayload
  function Normalize(ix: Index): Index {
    var chosen := if ix.defaultName == "" && "default" in ix.credentials then "default" else ix.defaultName;
    Index(chosen, map n | n in ix.credentials :: Flagged(ix.credentials[n], n, chosen))
  }

  // resolveEntryName: "" and "default" stand for the default identity.
  function Resolve(ix: Index, requested: string): (r: Option<string>)
    ensures r.Some? ==> r.value in ix.credentials
  {
    if requested in ix.credentials then Some(requested)
    else if (requested == "" || requested == "default") && ix.defaultName != "" && ix.defaultName in ix.credentials
    then Some(ix.defaultName)
    else None
  }

  // ---- Single writes ----

  datatype Write =
    | MakeDir(dir: string)
    | PutIdentity(dir: string, payload: Payload)
    | PutFile(dir: string, file: string, content: string)
    | DropFile(dir: string, file: string)
    | PutIndex(index: Index)
    | RemoveDir(dir: string)

  // A file can only be written into a directory that is there.
  function Do(d: Disk, w: Write): Disk {
    match w
    case MakeDir(dir) => if dir in d.dirs then d else d.(dirs := d.dirs[dir := Directory(None, map[])])
    case PutIdentity(dir, p) =>
      if dir in d.dirs then d.(dirs := d.dirs[dir := d.dirs[dir].(identity := Some(p))]) else d
    case PutFile(dir, f, c) =>
      if dir in d.dirs then d.(dirs := d.dirs[dir := d.dirs[dir].(files := d.dirs[dir].files[f := c])]) else d
    case DropFile(dir, f) =>
      if dir in d.dirs then d.(dirs := d.dirs[dir := d.dirs[dir].(files := d.dirs[dir].files - {f})]) else d
    case PutIndex(ix) => d.(index := Normalize(ix))
    case RemoveDir(dir) => d.(dirs := d.dirs - {dir})
  }

  // The disk when the program stops, or I/O starts failing, after the first budget writes of ws.
  function After(d: Disk, ws: seq<Write>, budget: nat): Disk
    decreases |ws|
  {
    if ws == [] || budget == 0 then d else After(Do(d, ws[0]), ws[1..], budget - 1)
  }

  function Remaining(ws: seq<Write>, budget: nat): nat {
    if budget < |ws| then 0 else budget - |ws|
  }

  lemma {:induction false} AfterAppend(d: Disk, a: seq<Write>, b: seq<Write>, budget: nat)
    ensures After(d, a + b, budget) == After(After(d, a, budget), b, Remaining(a, budget))
    decreases |a|
  {
    if a == [] {
      assert a + b == b;
    } else if budget > 0 {
      assert (a + b)[1..] == a[1..] + b;
      AfterAppend(Do(d, a[0]), a[1..], b, budget - 1);
    } else {
      assert After(d, b, 0) == d;
    }
  }

  lemma NothingAfter(d: Disk, ws: seq<Write>, budget: nat)
    requires ws == [] || budget == 0
    ensures After(d, ws, budget) == d
  {}

  lemma OneWrite(d: Disk, w: Write, budget: nat)
    ensures After(d, [w], budget) == if budget > 0 then Do(d, w) else d
  {
    hide Do;
  }

  lemma {:induction false} MoreThanEnough(d: Disk, ws: seq<Write>, budget: nat)
    requires budget >= |ws|
    ensures After(d, ws, budget) == After(d, ws, |ws|)
    decreases |ws|
  {
    hide Do;
    if ws != [] {
      MoreThanEnough(Do(d, ws[0]), ws[1..], budget - 1);
    }
  }

  // ---- Reading an identity ----

  // What Load returns about one identity.
  datatype Stored = Stored(name: string, dirName: string, did: string, details: Details, isDefault: bool)

  function Field(stored: string, fallback: string): string {
    if stored != "" then stored else fallback
  }

  function MergedDetails(p: Details, e: Details): Details {
    Details(Field(p.uniqueID, e.uniqueID), Field(p.userID, e.userID), Field(p.displayName, e.displayName),
            Field(p.handle, e.handle), Field(p.fullHandle, e.fullHandle), Field(p.createdAt, e.createdAt))
  }

  function WithStoredHandles(details: Details, didDomain: Option<string>): Details {
    var (h, f) := StoredFields(details.handle, details.fullHandle, didDomain);
    details.(handle := h, fullHandle := f)
  }

  // domainOf is the domain HandlePathPrefixFromDID finds in a DID, if any.
  function Read(d: Disk, name: string, domainOf: string -> Option<string>): Result<Stored, Error> {
    var ix := Normalize(d.index);
    match Resolve(ix, name)
    case None => Err(NotFound)
    case Some(resolved) =>
      var e := ix.credentials[resolved];
      if e.dirName !in d.dirs || d.dirs[e.dirName].identity.None? then Err(Unreadable)
      else
        var p := d.dirs[e.dirName].identity.value;
        var did := Field(p.did, e.did);
        var details := WithStoredHandles(MergedDetails(p.details, e.details), domainOf(did));
        Ok(Stored(resolved, e.dirName, did, WithStoredHandles(details, domainOf(did)), ix.defaultName == resolved))
  }

  // ---- The backfill of a load ----

  // persistStoredHandleBackfill: a reported handle field that is not blank replaces the stored one.
  function Refilled(stored: Details, reported: Details): Details {
    stored.(handle := Field(reported.handle, stored.handle),
            fullHandle := Field(reported.fullHandle, stored.fullHandle))
  }

  predicate IsStored(d: Disk, name: string) {
    var ix := Normalize(d.index);
    name in ix.credentials && ix.credentials[name].dirName in d.dirs
      && d.dirs[ix.credentials[name].dirName].identity.Some?
  }

  // The identity file, if one of its fields changes.
  function IdentityBackfill(d: Disk, name: string, reported: Details): seq<Write> {
    if !IsStored(d, name) then []
    else
      var dir := Normalize(d.index).credentials[name].dirName;
      var p := d.dirs[dir].identity.value;
      var payload := p.(details := Refilled(p.details, reported));
      if payload != p then [PutIdentity(dir, payload)] else []
  }

  // The index, if one of the fields of the entry changes.
  function IndexBackfill(d: Disk, name: string, reported: Details): seq<Write> {
    if !IsStored(d, name) then []
    else
      var ix := Normalize(d.index);
      var e := ix.credentials[name];
      var entry := e.(details := Refilled(e.details, reported));
      if entry != e then [PutIndex(ix.(credentials := ix.credentials[name := entry]))] else []
  }

  function BackfillWrites(d: Disk, name: string, reported: Details): seq<Write> {
    IdentityBackfill(d, name, reported) + IndexBackfill(d, name, reported)
  }

  // What Load writes besides reading.
  function LoadWrites(d: Disk, name: string, domainOf: string -> Option<string>): seq<Write> {
    match Read(d, name, domainOf)
    case Err(_) => []
    case Ok(r) => BackfillWrites(d, r.name, r.details)
  }

  // ---- Loading inside an operation ----

  // The disk, the number of writes that are left and the result of an operation.
  datatype Outcome<T> = Outcome(disk: Disk, budget: nat, result: Result<T, Error>)

  function Loading(d: Disk, name: string, domainOf: string -> Option<string>, budget: nat): Outcome<Stored> {
    var ws := LoadWrites(d, name, domainOf);
    Outcome(After(d, ws, budget), Remaining(ws, budget),
            if budget < |ws| then Err(IOFailure) else Read(d, name, domainOf))
  }

  // An operation that needs the first of its writes ws to succeed and ends in loading an identity.
  function ThenLoading(d: Disk, ws: seq<Write>, needed: nat, name: string, domainOf: string -> Option<string>,
                       budget: nat): Outcome<Stored>
  {
    var worked, left := After(d, ws, budget), Remaining(ws, budget);
    if budget < needed then Outcome(worked, left, Err(IOFailure)) else Loading(worked, name, domainOf, left)
  }

  // ---- Writing one identity ----

  // The DID document and the keys an input may bring, in the order in which they are written.
  datatype Keys = Keys(didDocument: Option<string>, key1Private: string, key1Public: string,
                       e2eeSigning: string, e2eeAgreement: string)

  datatype File = File(name: string, content: string)

  function Present(name: string, content: string): seq<File> {
    if content == "" then [] else [File(name, content)]
  }

  function KeyFiles(k: Keys): seq<File> {
    (match k.didDocument case Some(doc) => [File("did_document.json", doc)] case None => [])
    + Present("key-1-private.pem", k.key1Private) + Present("key-1-public.pem", k.key1Public)
    + Present("e2ee-signing-private.pem", k.e2eeSigning) + Present("e2ee-agreement-private.pem", k.e2eeAgreement)
  }

  function PutFiles(dir: string, files: seq<File>): seq<Write> {
    seq(|files|, i requires 0 <= i < |files| => PutFile(dir, files[i].name, files[i].content))
  }

  function ContentWrites(dir: string, payload: Payload, jwt: string, keys: Keys): seq<Write> {
    [PutIdentity(dir, payload), PutFile(dir, "auth.json", jwt)] + PutFiles(dir, KeyFiles(keys))
  }

  function FileWrites(dir: string, payload: Payload, jwt: string, keys: Keys): seq<Write> {
    [MakeDir(dir)] + ContentWrites(dir, payload, jwt, keys)
  }

  datatype SaveInput = SaveInput(name: string, did: string, details: Details, jwt: string, keys: Keys,
                                 replaceExisting: bool)

  predicate Incomplete(input: SaveInput) {
    Blank(input.did) || Blank(input.details.uniqueID)
  }

  // ---- save ----

  // A live entry other than name that uses the directory for another DID.
  predicate DirTaken(ix: Index, name: string, dir: string, did: string) {
    exists n | n in ix.credentials ::
      n != name && ix.credentials[n].dirName == dir && ix.credentials[n].did != did
  }

  // The creation time a saved identity keeps.
  function CreatedAt(d: Disk, name: string, now: string, domainOf: string -> Option<string>): string {
    match Read(d, name, domainOf)
    case Ok(existing) => Field(existing.details.createdAt, now)
    case Err(_) => now
  }

  function SavedDetails(d: Disk, input: SaveInput, now: string, domainOf: string -> Option<string>): Details {
    WithStoredHandles(input.details, domainOf(input.did)).(createdAt := CreatedAt(d, input.name, now, domainOf))
  }

  function SavedIndex(ix: Index, name: string, dir: string, did: string, details: Details): Index {
    var isDefault := ix.defaultName == name || ix.defaultName == "";
    Index(Field(ix.defaultName, name), ix.credentials[name := Entry(name, dir, did, details, isDefault)])
  }

  function SaveWrites(d: Disk, dir: string, input: SaveInput, details: Details): seq<Write> {
    FileWrites(dir, Payload(input.did, details), input.jwt, input.keys)
    + [PutIndex(SavedIndex(Normalize(d.index), input.name, dir, input.did, details))]
  }

  function ContentAndIndex(ix: Index, dir: string, input: SaveInput, details: Details): seq<Write> {
    ContentWrites(dir, Payload(input.did, details), input.jwt, input.keys)
    + [PutIndex(SavedIndex(ix, input.name, dir, input.did, details))]
  }

  lemma SaveWritesInTwoParts(d: Disk, dir: string, input: SaveInput, details: Details)
    ensures SaveWrites(d, dir, input, details)
      == [MakeDir(dir)] + ContentAndIndex(Normalize(d.index), dir, input, details)
  {
    hide ContentWrites, SavedIndex, Normalize;
  }

  // With the load for the creation time, made when the directory is there; the index that is written at the end
  // was read before it.
  function SaveWork(d: Disk, dir: string, input: SaveInput, details: Details, domainOf: string -> Option<string>)
    : seq<Write>
  {
    [MakeDir(dir)] + LoadWrites(d, input.name, domainOf) + ContentAndIndex(Normalize(d.index), dir, input, details)
  }

  // The directory save writes to, or why it refuses.
  function SaveTarget(d: Disk, input: SaveInput): Result<string, Error> {
    var ix := Normalize(d.index);
    if Blank(input.name) || Incomplete(input) then Err(InvalidInput)
    else if input.name in ix.credentials && ix.credentials[input.name].did != input.did && !input.replaceExisting
    then Err(Conflict)
    else match PreferredDirName(input.details.uniqueID)
      case None => Err(InvalidInput)
      case Some(dir) => if DirTaken(ix, input.name, dir, input.did) then Err(Conflict) else Ok(dir)
  }

  function Saving(d: Disk, input: SaveInput, now: string, domainOf: string -> Option<string>, budget: nat)
    : Outcome<Stored>
  {
    match SaveTarget(d, input)
    case Err(e) => Outcome(d, budget, Err(e))
    case Ok(dir) =>
      var ws := SaveWork(d, dir, input, SavedDetails(d, input, now, domainOf), domainOf);
      ThenLoading(d, ws, |ws|, input.name, domainOf, budget)
  }

  // ---- ReplaceIdentity ----

  predicate SharesWith(other: Entry, e: Entry) {
    other.dirName == e.dirName || other.did == e.did
  }

  // The names that share the entry's directory or its DID.
  function Linked(ix: Index, e: Entry): set<string> {
    set n | n in ix.credentials && SharesWith(ix.credentials[n], e)
  }

  predicate Foreign(ix: Index, linked: set<string>, did: string, dir: string) {
    exists n | n in ix.credentials :: n !in linked && (ix.credentials[n].did == did || ix.credentials[n].dirName == dir)
  }

  function Filled(value: string, current: string): string {
    if Blank(value) then current else value
  }

  function ReplacedDetails(input: SaveInput, current: Details, now: string, didDomain: Option<string>): Details {
    var i := input.details;
    WithStoredHandles(
      Details(i.uniqueID, Filled(i.userID, current.userID), Filled(i.displayName, current.displayName),
              Filled(i.handle, current.handle), Filled(i.fullHandle, current.fullHandle),
              Field(current.createdAt, now)),
      didDomain)
  }

  // The operation once it is known that it is allowed.
  datatype Replacement = Replacement(name: string, oldDir: string, dir: string, linked: set<string>, did: string,
                                     details: Details, jwt: string, keys: Keys)

  function Moved(ix: Index, r: Replacement): Index {
    ix.(credentials := map n | n in ix.credentials ::
      if n in r.linked then Entry(n, r.dir, r.did, r.details, ix.defaultName == n) else ix.credentials[n])
  }

  function ReplaceWrites(ix: Index, r: Replacement): seq<Write> {
    FileWrites(r.dir, Payload(r.did, r.details), r.jwt, r.keys)
    + [DropFile(r.dir, "e2ee-state.json"), PutIndex(Moved(ix, r))]
    + (if r.oldDir != r.dir then [RemoveDir(r.oldDir)] else [])
  }

  // Where the identity goes, once it is loaded.
  function Placed(ix: Index, resolved: string, current: Details, input: SaveInput, now: string,
                  domainOf: string -> Option<string>): Result<Replacement, Error>
    requires resolved in ix.credentials
  {
    var e := ix.credentials[resolved];
    match PreferredDirName(input.details.uniqueID)
    case None => Err(InvalidInput)
    case Some(dir) =>
      if Foreign(ix, Linked(ix, e), input.did, dir) then Err(Conflict)
      else Ok(Replacement(resolved, e.dirName, dir, Linked(ix, e), input.did,
                          ReplacedDetails(input, current, now, domainOf(input.did)), input.jwt, input.keys))
  }

  function ReplaceTarget(d: Disk, name: string, input: SaveInput, now: string, domainOf: string -> Option<string>)
    : Result<Replacement, Error>
  {
    var ix := Normalize(d.index);
    if Blank(name) || Incomplete(input) then Err(InvalidInput)
    else match Resolve(ix, name)
      case None => Err(NotFound)
      case Some(resolved) =>
        match Read(d, resolved, domainOf)
        case Err(error) => Err(error)
        case Ok(current) => Placed(ix, resolved, current.details, input, now, domainOf)
  }

  // The identity is loaded before its directories are compared with those of the others.
  function ReplaceLoads(d: Disk, name: string, input: SaveInput, domainOf: string -> Option<string>): seq<Write> {
    if Blank(name) || Incomplete(input) then []
    else match Resolve(Normalize(d.index), name)
      case None => []
      case Some(resolved) => LoadWrites(d, resolved, domainOf)
  }

  // The removal of the old directory may fail.
  function Replacing(d: Disk, name: string, input: SaveInput, now: string, domainOf: string -> Option<string>,
                     budget: nat): Outcome<Stored>
  {
    var loads := ReplaceLoads(d, name, input, domainOf);
    match ReplaceTarget(d, name, input, now, domainOf)
    case Err(e) =>
      Outcome(After(d, loads, budget), Remaining(loads, budget), Err(if budget < |loads| then IOFailure else e))
    case Ok(t) =>
      var ws := loads + ReplaceWrites(Normalize(d.index), t);
      ThenLoading(d, ws, |ws| - (if t.oldDir != t.dir then 1 else 0), t.name, domainOf, budget)
  }

  // ---- Summaries ----

  datatype Summary = Summary(name: string, dirName: string, did: string, details: Details)

  // summaryFor: an entry that already has its full handle is reported as it is, any other is loaded.
  function Summarize(d: Disk, e: Entry, domainOf: string -> Option<string>): Result<Summary, Error> {
    if Blank(e.details.fullHandle) && !Blank(e.name)
    then match Read(d, e.name, domainOf)
      case Err(error) => Err(error)
      case Ok(r) => Ok(Summary(r.name, r.dirName, r.did, r.details))
    else Ok(Summary(e.name, e.dirName, e.did, e.details))
  }

  function SummaryWrites(d: Disk, e: Entry, domainOf: string -> Option<string>): seq<Write> {
    if Blank(e.details.fullHandle) && !Blank(e.name) then LoadWrites(d, e.name, domainOf) else []
  }

  function Summarizing(d: Disk, e: Entry, domainOf: string -> Option<string>, budget: nat): Outcome<Summary> {
    var ws := SummaryWrites(d, e, domainOf);
    Outcome(After(d, ws, budget), Remaining(ws, budget),
            if budget < |ws| then Err(IOFailure) else Summarize(d, e, domainOf))
  }

  // SetDefault
  function Choosing(d: Disk, name: string, domainOf: string -> Option<string>, budget: nat): Outcome<Summary> {
    var ix := Normalize(d.index);
    if name !in ix.credentials then Outcome(d, budget, Err(NotFound))
    else if budget == 0 then Outcome(d, budget, Err(IOFailure))
    else Summarizing(Do(d, PutIndex(ix.(defaultName := name))), ix.credentials[name], domainOf, budget - 1)
  }

  // The entries of an index that was read before, summarised one after the other up to the first error.
  function Listing(d: Disk, ix: Index, names: seq<string>, domainOf: string -> Option<string>, budget: nat)
    : Outcome<seq<Summary>>
    requires forall n | n in names :: n in ix.credentials
    decreases |names|
  {
    if names == [] then Outcome(d, budget, Ok([]))
    else
      var first := Summarizing(d, ix.credentials[names[0]], domainOf, budget);
      match first.result
      case Err(e) => Outcome(first.disk, first.budget, Err(e))
      case Ok(s) => Behind(s, Listing(first.disk, ix, names[1..], domainOf, first.budget))
  }

  function Behind(s: Summary, rest: Outcome<seq<Summary>>): Outcome<seq<Summary>> {
    match rest.result
    case Err(_) => rest
    case Ok(more) => rest.(result := Ok([s] + more))
  }

  function NameOrder(): (string, string) -> bool {
    (x: string, y: string) => !Less(y, x)
  }

  // The given names, each once and in ascending order.
  ghost predicate Ascending(names: seq<string>, keys: set<string>) {
    (forall n :: n in names <==> n in keys) && (forall i, j | 0 <= i < j < |names| :: Less(names[i], names[j]))
  }
}
