// internal/identity/store.go: the Manager, whose methods write one file after the other.
module IdentityStore {
  import opened Wrappers
  import opened Text
  import opened Naming
  import opened Sorting
  import opened IdentityIndex

  class Manager {
    var disk: Disk
    // How many more writes succeed before the program is stopped or I/O fails for good.
    var budget: nat
    const domainOf: string -> Option<string>

    constructor (disk: Disk, budget: nat, domainOf: string -> Option<string>)
      ensures this.disk == disk && this.budget == budget && this.domainOf == domainOf
    {
      this.disk, this.budget, this.domainOf := disk, budget, domainOf;
    }

    method Perform(w: Write) returns (ok: bool)
      modifies this
      ensures ok == (old(budget) > 0)
      ensures disk == After(old(disk), [w], old(budget)) && budget == Remaining([w], old(budget))
    {
      ok := budget > 0;
      if ok {
        disk := Do(disk, w);
        budget := budget - 1;
      }
    }

    // normalizeIndexPayload on the loaded index: the flags are rewritten entry by entry.
    method LoadIndex() returns (ix: Index)
      ensures ix == Normalize(disk.index)
    {
      hide Normalize;
      var chosen, credentials := disk.index.defaultName, disk.index.credentials;
      if chosen == "" && "default" in credentials {
        chosen := "default";
      }
      var keys := credentials.Keys;
      while keys != {}
        invariant keys <= disk.index.credentials.Keys && credentials.Keys == disk.index.credentials.Keys
        invariant forall n | n in keys :: credentials[n] == disk.index.credentials[n]
        invariant forall n | n in credentials && n !in keys ::
          credentials[n] == Flagged(disk.index.credentials[n], n, chosen)
        decreases |keys|
      {
        var n :| n in keys;
        credentials := credentials[n := Flagged(credentials[n], n, chosen)];
        keys := keys - {n};
      }
      ix := Index(chosen, credentials);
      IsNormalized(disk.index, ix);
    }

    // Load: what is read is reported, with older handle fields written back.
    method Load(name: string) returns (r: Result<Stored, Error>)
      modifies this
      ensures Outcome(disk, budget, r) == Loading(old(disk), name, domainOf, old(budget))
    {
      hide Do, Read, After, Normalize, Refilled;
      var ix := LoadIndex();
      r := Read(disk, name, domainOf);
      NothingAfter(disk, [], budget);
      if r.Err? {
        return;
      }
      ReadFindsEntry(disk, name, domainOf);
      var e := ix.credentials[r.value.name];
      var p := disk.dirs[e.dirName].identity.value;
      var payload := p.(details := Refilled(p.details, r.value.details));
      var entry := e.(details := Refilled(e.details, r.value.details));
      var put := PutIndex(ix.(credentials := ix.credentials[r.value.name := entry]));
      ghost var first := IdentityBackfill(disk, r.value.name, r.value.details);
      ghost var second := IndexBackfill(disk, r.value.name, r.value.details);
      AfterAppend(disk, first, second, budget);
      NothingAfter(disk, [], budget);
      if payload != p {
        var ok := Perform(PutIdentity(e.dirName, payload));
        if !ok {
          NothingAfter(disk, second, 0);
          return Err(IOFailure);
        }
      }
      NothingAfter(disk, [], budget);
      if entry != e {
        var ok := Perform(put);
        if !ok {
          return Err(IOFailure);
        }
      }
    }

    method WriteContent(dir: string, payload: Payload, jwt: string, keys: Keys) returns (ok: bool)
      modifies this
      ensures var ws := ContentWrites(dir, payload, jwt, keys);
        && ok == (old(budget) >= |ws|)
        && disk == After(old(disk), ws, old(budget)) && budget == Remaining(ws, old(budget))
    {
      hide Do, After, KeyFiles;
      var files := KeyFiles(keys);
      ghost var ws := ContentWrites(dir, payload, jwt, keys);
      ok := Perform(PutIdentity(dir, payload));
      AfterAppend(old(disk), [PutIdentity(dir, payload)], [PutFile(dir, "auth.json", jwt)], old(budget));
      NothingAfter(disk, [PutFile(dir, "auth.json", jwt)], 0);
      if ok {
        ok := Perform(PutFile(dir, "auth.json", jwt));
      }
      assert [PutIdentity(dir, payload)] + [PutFile(dir, "auth.json", jwt)] == ws[..2];
      var i := 0;
      while ok && i < |files|
        invariant i <= |files|
        invariant ok == (old(budget) >= 2 + i)
        invariant disk == After(old(disk), ws[..2 + i], old(budget)) && budget == Remaining(ws[..2 + i], old(budget))
        decreases |files| - i, ok
      {
        AfterAppend(old(disk), ws[..2 + i], [ws[2 + i]], old(budget));
        assert ws[..2 + i] + [ws[2 + i]] == ws[..2 + (i + 1)];
        ok := Perform(PutFile(dir, files[i].name, files[i].content));
        i := i + 1;
      }
      StopsEarly(old(disk), ws, 2 + i, old(budget));
    }

    method Save(input: SaveInput, now: string) returns (r: Result<Stored, Error>)
      modifies this
      ensures Outcome(disk, budget, r) == Saving(old(disk), input, now, domainOf, old(budget))
    {
      hide Normalize, SaveWork, SavedDetails, ThenLoading;
      if Blank(input.name) || Incomplete(input) {
        return Err(InvalidInput);
      }
      var ix := LoadIndex();
      if input.name in ix.credentials && ix.credentials[input.name].did != input.did && !input.replaceExisting {
        return Err(Conflict);
      }
      var preferred := PreferredDirName(input.details.uniqueID);
      if preferred.None? {
        return Err(InvalidInput);
      }
      var dir := preferred.value;
      var keys := ix.credentials.Keys;
      while keys != {}
        invariant keys <= ix.credentials.Keys
        invariant forall n | n in ix.credentials && n !in keys ::
          n == input.name || ix.credentials[n].dirName != dir || ix.credentials[n].did == input.did
        decreases |keys|
      {
        var n :| n in keys;
        if n != input.name && ix.credentials[n].dirName == dir && ix.credentials[n].did != input.did {
          return Err(Conflict);
        }
        keys := keys - {n};
      }
      r := WriteSaved(ix, dir, input, now);
    }

    // The index is the one that was read before the identity is loaded for its creation time.
    method WriteSaved(ix: Index, dir: string, input: SaveInput, now: string) returns (r: Result<Stored, Error>)
      requires ix == Normalize(disk.index)
      modifies this
      ensures var ws := SaveWork(old(disk), dir, input, SavedDetails(old(disk), input, now, domainOf), domainOf);
        Outcome(disk, budget, r) == ThenLoading(old(disk), ws, |ws|, input.name, domainOf, old(budget))
    {
      hide Do, Read, Normalize, After, ContentWrites, LoadWrites, SavedIndex, WithStoredHandles;
      ghost var first, loads := [MakeDir(dir)], LoadWrites(old(disk), input.name, domainOf);
      ghost var planned := SavedDetails(old(disk), input, now, domainOf);
      ghost var content := ContentWrites(dir, Payload(input.did, planned), input.jwt, input.keys);
      ghost var put := PutIndex(SavedIndex(ix, input.name, dir, input.did, planned));
      MakeDirIsNotRead(old(disk), dir, input.name, domainOf);
      OneWrite(old(disk), MakeDir(dir), old(budget));
      AfterAppend(old(disk), first, loads, old(budget));
      AfterAppend(old(disk), first + loads, content, old(budget));
      AfterAppend(old(disk), first + loads + content, [put], old(budget));
      assert first + loads + (content + [put]) == first + loads + content + [put];
      var ok := Perform(MakeDir(dir));
      NothingMore(disk, loads, content, put, budget);
      if !ok {
        return Err(IOFailure);
      }
      var existing := Load(input.name);
      var createdAt := if existing.Ok? then Field(existing.value.details.createdAt, now) else now;
      var details := WithStoredHandles(input.details, domainOf(input.did)).(createdAt := createdAt);
      assert budget > 0 ==> details == planned;
      NothingMore(disk, [], content, put, budget);
      ContentIsWritten(dir, Payload(input.did, details), input.jwt, input.keys);
      NothingAfter(disk, ContentWrites(dir, Payload(input.did, details), input.jwt, input.keys), 0);
      ok := WriteContent(dir, Payload(input.did, details), input.jwt, input.keys);
      NothingAfter(disk, [put], 0);
      if !ok {
        return Err(IOFailure);
      }
      ok := Perform(PutIndex(SavedIndex(ix, input.name, dir, input.did, details)));
      if !ok {
        return Err(IOFailure);
      }
      r := Load(input.name);
    }

    // The linked names, collected entry by entry.
    method LinkedNames(ix: Index, e: Entry) returns (linked: set<string>)
      ensures linked == Linked(ix, e) && linked <= ix.credentials.Keys
    {
      linked := {};
      var keys := ix.credentials.Keys;
      while keys != {}
        invariant keys <= ix.credentials.Keys
        invariant forall n :: n in linked <==> n in ix.credentials && n !in keys && SharesWith(ix.credentials[n], e)
        decreases |keys|
      {
        var n :| n in keys;
        if ix.credentials[n].dirName == e.dirName || ix.credentials[n].did == e.did {
          linked := linked + {n};
        }
        keys := keys - {n};
      }
    }

    method FindForeign(ix: Index, linked: set<string>, did: string, dir: string) returns (found: bool)
      ensures found == Foreign(ix, linked, did, dir)
    {
      var keys := ix.credentials.Keys;
      while keys != {}
        invariant keys <= ix.credentials.Keys
        invariant forall n | n in ix.credentials && n !in keys ::
          n in linked || (ix.credentials[n].did != did && ix.credentials[n].dirName != dir)
        decreases |keys|
      {
        var n :| n in keys;
        if n !in linked && (ix.credentials[n].did == did || ix.credentials[n].dirName == dir) {
          return true;
        }
        keys := keys - {n};
      }
      found := false;
    }

    // Every linked entry is pointed at the new directory and DID.
    method MoveLinked(ix: Index, r: Replacement) returns (moved: Index)
      requires r.linked <= ix.credentials.Keys
      ensures moved == Moved(ix, r)
    {
      var credentials, names := ix.credentials, r.linked;
      while names != {}
        invariant names <= r.linked && credentials.Keys == ix.credentials.Keys
        invariant forall n | n in credentials && n in r.linked - names ::
          credentials[n] == Entry(n, r.dir, r.did, r.details, ix.defaultName == n)
        invariant forall n | n in credentials && n !in r.linked - names :: credentials[n] == ix.credentials[n]
        decreases |names|
      {
        var n :| n in names;
        credentials := credentials[n := credentials[n].(
          name := n, dirName := r.dir, did := r.did, details := r.details, isDefault := ix.defaultName == n)];
        names := names - {n};
      }
      moved := ix.(credentials := credentials);
      assert moved.credentials == Moved(ix, r).credentials;
    }

    method Place(ix: Index, resolved: string, current: Details, input: SaveInput, now: string)
      returns (t: Result<Replacement, Error>)
      requires resolved in ix.credentials
      ensures t == Placed(ix, resolved, current, input, now, domainOf)
    {
      hide Linked, Foreign, ReplacedDetails;
      var e := ix.credentials[resolved];
      var preferred := PreferredDirName(input.details.uniqueID);
      if preferred.None? {
        return Err(InvalidInput);
      }
      var linked := LinkedNames(ix, e);
      var foreign := FindForeign(ix, linked, input.did, preferred.value);
      if foreign {
        return Err(Conflict);
      }
      t := Ok(Replacement(resolved, e.dirName, preferred.value, linked, input.did,
        ReplacedDetails(input, current, now, domainOf(input.did)), input.jwt, input.keys));
    }

    // The old directory is removed last; a failure there is ignored.
    method ReplaceIdentity(name: string, input: SaveInput, now: string) returns (r: Result<Stored, Error>)
      modifies this
      ensures Outcome(disk, budget, r) == Replacing(old(disk), name, input, now, domainOf, old(budget))
    {
      hide Do, Read, After, Linked, Resolve, Normalize, ReplaceWrites, LoadWrites, Placed, ThenLoading, TrimSpace;
      NothingAfter(disk, [], budget);
      if Blank(name) || Incomplete(input) {
        return Err(InvalidInput);
      }
      var ix := LoadIndex();
      var resolved := Resolve(ix, name);
      if resolved.None? {
        return Err(NotFound);
      }
      UnreadIsNotWritten(disk, resolved.value, domainOf);
      var current := Load(resolved.value);
      if current.Err? {
        StopsInLoad(old(disk), name, input, now, domainOf, old(budget));
        return Err(current.error);
      }
      var placed := Place(ix, resolved.value, current.value.details, input, now);
      if placed.Err? {
        return Err(placed.error);
      }
      var t := placed.value;
      PlacedIsLinked(ix, resolved.value, current.value.details, input, now, domainOf);
      LoadsFirst(old(disk), ReplaceLoads(old(disk), name, input, domainOf), ReplaceWrites(ix, t),
                 if t.oldDir != t.dir then 1 else 0, t.name, domainOf, old(budget));
      r := CarryOut(ix, t);
    }

    method CarryOut(ix: Index, t: Replacement) returns (r: Result<Stored, Error>)
      requires t.linked <= ix.credentials.Keys
      modifies this
      ensures var ws := ReplaceWrites(ix, t);
        Outcome(disk, budget, r) == ThenLoading(old(disk), ws, |ws| - (if t.oldDir != t.dir then 1 else 0), t.name,
                                                domainOf, old(budget))
    {
      hide After, ReplaceWrites, Loading;
      var ok := WriteReplacement(ix, t);
      if !ok {
        return Err(IOFailure);
      }
      r := Load(t.name);
    }

    method WriteReplacement(ix: Index, t: Replacement) returns (ok: bool)
      requires t.linked <= ix.credentials.Keys
      modifies this
      ensures var ws := ReplaceWrites(ix, t);
        && disk == After(old(disk), ws, old(budget)) && budget == Remaining(ws, old(budget))
        && ok == (old(budget) >= |ws| - (if t.oldDir != t.dir then 1 else 0))
    {
      hide Do, ContentWrites, Moved;
      var payload := Payload(t.did, t.details);
      ghost var content := ContentWrites(t.dir, payload, t.jwt, t.keys);
      ghost var files := FileWrites(t.dir, payload, t.jwt, t.keys);
      ghost var drop, last := DropFile(t.dir, "e2ee-state.json"), RemoveDir(t.oldDir);
      ghost var put := PutIndex(Moved(ix, t));
      AfterAppend(old(disk), [MakeDir(t.dir)], content, old(budget));
      AfterAppend(old(disk), files, [drop], old(budget));
      AfterAppend(old(disk), files + [drop], [put], old(budget));
      AfterAppend(old(disk), files + [drop] + [put], [last], old(budget));
      assert files + [drop, put] == files + [drop] + [put];
      assert files + [drop, put] + [] == files + [drop] + [put];
      ok := Perform(MakeDir(t.dir));
      NothingMore(disk, content, [drop], put, budget);
      NothingMore(disk, [], [], last, budget);
      if !ok {
        return;
      }
      ok := WriteContent(t.dir, payload, t.jwt, t.keys);
      NothingMore(disk, [], [drop], put, budget);
      NothingMore(disk, [], [], last, budget);
      if !ok {
        return;
      }
      ok := Perform(DropFile(t.dir, "e2ee-state.json"));
      var moved := MoveLinked(ix, t);
      ok := Perform(PutIndex(moved));
      if !ok {
        return;
      }
      if t.oldDir != t.dir {
        var _ := Perform(RemoveDir(t.oldDir));
      }
    }

    // summaryFor: an entry with its full handle is reported as it is, any other is loaded.
    method SummaryFor(e: Entry) returns (r: Result<Summary, Error>)
      modifies this
      ensures Outcome(disk, budget, r) == Summarizing(old(disk), e, domainOf, old(budget))
    {
      hide Read, Do, LoadWrites, TrimSpace;
      NothingAfter(disk, [], budget);
      if Blank(e.details.fullHandle) && !Blank(e.name) {
        var record := Load(e.name);
        if record.Err? {
          UnreadIsNotWritten(old(disk), e.name, domainOf);
          return Err(record.error);
        }
        return Ok(Summary(record.value.name, record.value.dirName, record.value.did, record.value.details));
      }
      r := Ok(Summary(e.name, e.dirName, e.did, e.details));
    }

    method SetDefault(name: string) returns (r: Result<Summary, Error>)
      modifies this
      ensures Outcome(disk, budget, r) == Choosing(old(disk), name, domainOf, old(budget))
    {
      hide Summarizing, Do, Normalize;
      var ix := LoadIndex();
      if name !in ix.credentials {
        return Err(NotFound);
      }
      var e := ix.credentials[name];
      ix := ix.(defaultName := name, credentials := ix.credentials[name := e]);
      assert ix.credentials == Normalize(old(disk).index).credentials;
      var ok := Perform(PutIndex(ix));
      if !ok {
        return Err(IOFailure);
      }
      OneWrite(old(disk), PutIndex(ix), old(budget));
      r := SummaryFor(e);
    }

    method Current() returns (r: Result<Summary, Error>)
      modifies this
      ensures var ix := Normalize(old(disk).index);
        Outcome(disk, budget, r) ==
          if ix.defaultName in ix.credentials && ix.defaultName != ""
          then Summarizing(old(disk), ix.credentials[ix.defaultName], domainOf, old(budget))
          else Outcome(old(disk), old(budget), Err(NoDefault))
    {
      hide Summarizing;
      var ix := LoadIndex();
      if ix.defaultName == "" {
        if "default" !in ix.credentials {
          return Err(NoDefault);
        }
        ix := ix.(defaultName := "default");
      }
      if ix.defaultName !in ix.credentials {
        return Err(NoDefault);
      }
      r := SummaryFor(ix.credentials[ix.defaultName]);
    }

    // The entries of the index as it was read, up to the first that cannot be summarised.
    method List() returns (r: Result<seq<Summary>, Error>)
      modifies this
      ensures var ix := Normalize(old(disk).index);
        exists names :: Ascending(names, ix.credentials.Keys)
          && Outcome(disk, budget, r) == Listing(old(disk), ix, names, domainOf, old(budget))
    {
      hide Summarizing, Less, Normalize;
      var ix := LoadIndex();
      var names := SortedNames(ix.credentials.Keys);
      var summaries: seq<Summary> := [];
      assert names[0..] == names;
      BehindNone(Listing(disk, ix, names, domainOf, budget));
      for i := 0 to |names|
        invariant |summaries| == i
        invariant Listing(old(disk), ix, names, domainOf, old(budget)) ==
          AllBehind(summaries, Listing(disk, ix, names[i..], domainOf, budget))
      {
        assert names[i..][1..] == names[i + 1..];
        var summary := SummaryFor(ix.credentials[names[i]]);
        if summary.Err? {
          return Err(summary.error);
        }
        BehindAll(summaries, summary.value, Listing(disk, ix, names[i + 1..], domainOf, budget));
        summaries := summaries + [summary.value];
      }
      assert names[|names|..] == [] && summaries + [] == summaries;
      r := Ok(summaries);
    }

    method SortedNames(keys: set<string>) returns (names: seq<string>)
      ensures Ascending(names, keys)
    {
      names := [];
      var rest := keys;
      while rest != {}
        invariant rest <= keys && multiset(names) == multiset(keys - rest)
        decreases |rest|
      {
        var n :| n in rest;
        assert keys - (rest - {n}) == (keys - rest) + {n};
        names := names + [n];
        rest := rest - {n};
      }
      assert keys - rest == keys;
      SortPermutes(names, NameOrder());
      SortSortsNames(names, keys);
      names := StableSort(names, NameOrder());
    }
  }

  lemma ReadFindsEntry(d: Disk, name: string, domainOf: string -> Option<string>)
    requires Read(d, name, domainOf).Ok?
    ensures IsStored(d, Read(d, name, domainOf).value.name)
  {
    hide WithStoredHandles, MergedDetails, Normalize;
  }

  lemma NothingMore(d: Disk, a: seq<Write>, b: seq<Write>, w: Write, budget: nat)
    ensures budget == 0 ==> After(d, a, 0) == d && After(d, b, 0) == d && After(d, [w], 0) == d
  {}

  lemma ContentIsWritten(dir: string, payload: Payload, jwt: string, keys: Keys)
    ensures |ContentWrites(dir, payload, jwt, keys)| >= 2
  {}

  // Making a directory does not change what is read.
  lemma MakeDirIsNotRead(d: Disk, dir: string, name: string, domainOf: string -> Option<string>)
    ensures Read(Do(d, MakeDir(dir)), name, domainOf) == Read(d, name, domainOf)
    ensures LoadWrites(Do(d, MakeDir(dir)), name, domainOf) == LoadWrites(d, name, domainOf)
  {
    hide WithStoredHandles, MergedDetails, Normalize, Refilled;
  }

  lemma IsNormalized(before: Index, ix: Index)
    requires ix.defaultName ==
      (if before.defaultName == "" && "default" in before.credentials then "default" else before.defaultName)
    requires ix.credentials.Keys == before.credentials.Keys
    requires forall n | n in ix.credentials :: ix.credentials[n] == Flagged(before.credentials[n], n, ix.defaultName)
    ensures ix == Normalize(before)
  {
    assert ix.credentials == Normalize(before).credentials;
  }

  lemma {:induction false} StopsEarly(d: Disk, ws: seq<Write>, n: nat, budget: nat)
    requires n <= |ws| && (budget < n || n == |ws|)
    ensures After(d, ws[..n], budget) == After(d, ws, budget)
  {
    hide Do;
    assert ws[..n] + ws[n..] == ws;
    AfterAppend(d, ws[..n], ws[n..], budget);
  }

  lemma UnreadIsNotWritten(d: Disk, name: string, domainOf: string -> Option<string>)
    ensures Read(d, name, domainOf).Err? ==> LoadWrites(d, name, domainOf) == []
  {}

  lemma StopsInLoad(d: Disk, name: string, input: SaveInput, now: string, domainOf: string -> Option<string>,
                    budget: nat)
    ensures var loads := ReplaceLoads(d, name, input, domainOf);
      budget < |loads| ==>
        Replacing(d, name, input, now, domainOf, budget) == Outcome(After(d, loads, budget), 0, Err(IOFailure))
  {
    hide Do, After, ReplaceLoads, ReplaceTarget, Normalize, FileWrites;
    var loads := ReplaceLoads(d, name, input, domainOf);
    if budget < |loads| && ReplaceTarget(d, name, input, now, domainOf).Ok? {
      var core := ReplaceWrites(Normalize(d.index), ReplaceTarget(d, name, input, now, domainOf).value);
      AfterAppend(d, loads, core, budget);
      NothingAfter(After(d, loads, budget), core, 0);
    }
  }

  lemma LoadsFirst(d: Disk, loads: seq<Write>, ws: seq<Write>, spare: nat, name: string,
                   domainOf: string -> Option<string>, budget: nat)
    requires budget >= |loads| && spare <= |ws|
    ensures ThenLoading(d, loads + ws, |loads + ws| - spare, name, domainOf, budget)
      == ThenLoading(After(d, loads, budget), ws, |ws| - spare, name, domainOf, Remaining(loads, budget))
  {
    hide After, Loading;
    AfterAppend(d, loads, ws, budget);
  }

  lemma PlacedIsLinked(ix: Index, resolved: string, current: Details, input: SaveInput, now: string,
                       domainOf: string -> Option<string>)
    requires resolved in ix.credentials && Placed(ix, resolved, current, input, now, domainOf).Ok?
    ensures var t := Placed(ix, resolved, current, input, now, domainOf).value;
      t.linked <= ix.credentials.Keys && |ReplaceWrites(ix, t)| >= 1
  {
    hide FileWrites, ReplacedDetails, Foreign, PreferredDirName;
  }


  // The loop of List appends to the summaries it has.
  function AllBehind(summaries: seq<Summary>, rest: Outcome<seq<Summary>>): Outcome<seq<Summary>> {
    match rest.result
    case Err(_) => rest
    case Ok(more) => rest.(result := Ok(summaries + more))
  }

  lemma BehindNone(rest: Outcome<seq<Summary>>)
    ensures AllBehind([], rest) == rest
  {
    if rest.result.Ok? {
      assert [] + rest.result.value == rest.result.value;
    }
  }

  lemma BehindAll(summaries: seq<Summary>, s: Summary, rest: Outcome<seq<Summary>>)
    ensures AllBehind(summaries, Behind(s, rest)) == AllBehind(summaries + [s], rest)
  {
    if rest.result.Ok? {
      assert summaries + ([s] + rest.result.value) == summaries + [s] + rest.result.value;
    }
  }

  lemma SortSortsNames(names: seq<string>, keys: set<string>)
    requires multiset(names) == multiset(keys)
    ensures Ascending(StableSort(names, NameOrder()), keys)
  {
    var s := StableSort(names, NameOrder());
    NameOrderIsPreorder();
    SortPermutes(names, NameOrder());
    SortSorts(names, NameOrder());
    forall n ensures n in s <==> n in keys {
      assert n in s <==> n in multiset(s);
    }
    forall i, j | 0 <= i < j < |s| ensures Less(s[i], s[j]) {
      NoRepeats(s, keys, i, j);
      LessIsTotal(s[i], s[j]);
      assert NameOrder()(s[i], s[j]);
    }
  }

  lemma NameOrderIsPreorder()
    ensures Preorder(NameOrder())
  {
    forall x, y ensures NameOrder()(x, y) || NameOrder()(y, x) {
      LessIsTotal(x, y);
    }
    forall x, y, z | NameOrder()(x, y) && NameOrder()(y, z) ensures NameOrder()(x, z) {
      LessTransitive(x, y, z);
    }
  }

  lemma NoRepeats(s: seq<string>, keys: set<string>, i: nat, j: nat)
    requires multiset(s) == multiset(keys) && i < j < |s|
    ensures s[i] != s[j]
  {
    if s[i] == s[j] {
      CountedTwice(s, i, j);
    }
  }
}
