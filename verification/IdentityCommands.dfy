// The operations of the identity store as sequences of writes, with the loads that are made inside them.
module IdentityCommands {
  import opened Wrappers
  import opened Text
  import opened IdentityIndex
  import opened IdentityLoad
  import opened IdentityStore
  import opened Recovery

  datatype Command =
    | Save(input: SaveInput, now: string)
    | Replace(name: string, input: SaveInput, now: string)
    | Load(name: string)
    | SetDefault(name: string)
    | Promote(finalName: string, tempName: string, archived: seq<string>)

  // The writes an operation makes itself; a refused one makes none.
  function OwnWrites(d: Disk, c: Command, domainOf: string -> Option<string>): seq<Write> {
    match c
    case Save(input, now) =>
      (match SaveTarget(d, input)
       case Ok(dir) => SaveWrites(d, dir, input, SavedDetails(d, input, now, domainOf))
       case Err(_) => [])
    case Replace(name, input, now) =>
      (match ReplaceTarget(d, name, input, now, domainOf)
       case Ok(t) => ReplaceWrites(Normalize(d.index), t)
       case Err(_) => [])
    case Load(_) => []
    case SetDefault(name) =>
      if name in Normalize(d.index).credentials then [PutIndex(Normalize(d.index).(defaultName := name))] else []
    case Promote(finalName, tempName, archived) =>
      (match PromoteTarget(Normalize(d.index), finalName, tempName, archived)
       case Ok(ix) => [PutIndex(ix)]
       case Err(_) => [])
  }

  // With the load it makes before or between them.
  function Work(d: Disk, c: Command, domainOf: string -> Option<string>): seq<Write> {
    match c
    case Save(input, now) =>
      (match SaveTarget(d, input)
       case Ok(dir) => SaveWork(d, dir, input, SavedDetails(d, input, now, domainOf), domainOf)
       case Err(_) => [])
    case Replace(name, input, now) => ReplaceLoads(d, name, input, domainOf) + OwnWrites(d, c, domainOf)
    case _ => OwnWrites(d, c, domainOf)
  }

  // The identity that is loaded at the end.
  function LoadedLast(d: Disk, c: Command, domainOf: string -> Option<string>): Option<string> {
    match c
    case Save(input, _) => if SaveTarget(d, input).Ok? then Some(input.name) else None
    case Replace(name, input, now) =>
      (match ReplaceTarget(d, name, input, now, domainOf)
       case Ok(t) => Some(t.name)
       case Err(_) => None)
    case Load(name) => Some(name)
    case SetDefault(name) =>
      if name in Normalize(d.index).credentials && Blank(Normalize(d.index).credentials[name].details.fullHandle)
        && !Blank(name)
      then Some(name) else None
    case Promote(finalName, tempName, archived) =>
      if PromoteTarget(Normalize(d.index), finalName, tempName, archived).Ok? then Some(finalName) else None
  }

  // All writes of an operation in order.
  function Writes(d: Disk, c: Command, domainOf: string -> Option<string>): seq<Write> {
    var work := Work(d, c, domainOf);
    match LoadedLast(d, c, domainOf)
    case None => work
    case Some(name) => work + LoadWrites(After(d, work, |work|), name, domainOf)
  }

  // ---- The operations carry out these writes ----

  lemma ThenLoadingWrites(d: Disk, ws: seq<Write>, needed: nat, name: string, domainOf: string -> Option<string>,
                          budget: nat)
    requires needed <= |ws|
    ensures ThenLoading(d, ws, needed, name, domainOf, budget).disk
      == After(d, ws + LoadWrites(After(d, ws, |ws|), name, domainOf), budget)
  {
    hide Do, LoadWrites;
    var last := LoadWrites(After(d, ws, |ws|), name, domainOf);
    AfterAppend(d, ws, last, budget);
    if budget >= |ws| {
      MoreThanEnough(d, ws, budget);
    } else {
      NothingAfter(After(d, ws, budget), last, 0);
      NothingAfter(After(d, ws, budget), LoadWrites(After(d, ws, budget), name, domainOf), 0);
    }
  }

  // The disk the method of a command leaves.
  function Left(d: Disk, c: Command, domainOf: string -> Option<string>, budget: nat): Disk {
    match c
    case Save(input, now) => Saving(d, input, now, domainOf, budget).disk
    case Replace(name, input, now) => Replacing(d, name, input, now, domainOf, budget).disk
    case Load(name) => Loading(d, name, domainOf, budget).disk
    case SetDefault(name) => Choosing(d, name, domainOf, budget).disk
    case Promote(finalName, tempName, archived) => Promoting(d, finalName, tempName, archived, domainOf, budget).disk
  }

  // It is what the writes leave, wherever they stop.
  lemma WritesAreCarriedOut(d: Disk, c: Command, domainOf: string -> Option<string>, budget: nat)
    ensures After(d, Writes(d, c, domainOf), budget) == Left(d, c, domainOf, budget)
  {
    hide Do, LoadWrites, SaveWork, SaveTarget, ReplaceTarget, ReplaceWrites, ReplaceLoads, PromoteTarget, After,
      Normalize, ThenLoading, TrimSpace;
    NothingAfter(d, [], budget);
    match c
    case Save(input, now) =>
      if SaveTarget(d, input).Ok? {
        var ws := Work(d, c, domainOf);
        ThenLoadingWrites(d, ws, |ws|, input.name, domainOf, budget);
      }
    case Replace(name, input, now) =>
      if ReplaceTarget(d, name, input, now, domainOf).Ok? {
        ReplacementIsCarriedOut(d, name, input, now, domainOf, budget);
      } else {
        assert ReplaceLoads(d, name, input, domainOf) + [] == ReplaceLoads(d, name, input, domainOf);
      }
    case Load(name) =>
      NothingAfter(d, [], 0);
      assert [] + LoadWrites(d, name, domainOf) == LoadWrites(d, name, domainOf);
    case SetDefault(name) =>
      ChoiceIsCarriedOut(d, name, domainOf, budget);
    case Promote(finalName, tempName, archived) =>
      if PromoteTarget(Normalize(d.index), finalName, tempName, archived).Ok? {
        ThenLoadingWrites(d, Work(d, c, domainOf), 1, finalName, domainOf, budget);
      }
  }

  lemma ReplacementIsCarriedOut(d: Disk, name: string, input: SaveInput, now: string,
                                domainOf: string -> Option<string>, budget: nat)
    requires ReplaceTarget(d, name, input, now, domainOf).Ok?
    ensures After(d, Writes(d, Replace(name, input, now), domainOf), budget)
      == Replacing(d, name, input, now, domainOf, budget).disk
  {
    hide Do, LoadWrites, ReplaceTarget, ReplaceLoads, After, Normalize, ThenLoading, FileWrites;
    var t := ReplaceTarget(d, name, input, now, domainOf).value;
    var ws := Work(d, Replace(name, input, now), domainOf);
    ThenLoadingWrites(d, ws, |ws| - (if t.oldDir != t.dir then 1 else 0), t.name, domainOf, budget);
  }

  lemma ChoiceIsCarriedOut(d: Disk, name: string, domainOf: string -> Option<string>, budget: nat)
    ensures After(d, Writes(d, SetDefault(name), domainOf), budget) == Choosing(d, name, domainOf, budget).disk
  {
    hide Do, LoadWrites, Normalize, TrimSpace, After, Summarize;
    var ix := Normalize(d.index);
    NothingAfter(d, [], budget);
    if name in ix.credentials {
      var put := PutIndex(ix.(defaultName := name));
      var loads := LoadWrites(Do(d, put), name, domainOf);
      EntryIsNamed(d.index, name);
      OneWrite(d, put, budget);
      OneWrite(d, put, 1);
      AfterAppend(d, [put], loads, budget);
      NothingAfter(d, loads, 0);
      NothingAfter(Do(d, put), [], Remaining([put], budget));
    }
  }

  lemma EntryIsNamed(ix: Index, name: string)
    requires name in Normalize(ix).credentials
    ensures Normalize(ix).credentials[name].name == name
  {}

  // ---- The loads inside an operation ----

  // A load between writes: wherever it all stops, the disk is one that the writes alone pass through, with
  // other handle fields.
  lemma LoadBetween(d: Disk, first: seq<Write>, name: string, domainOf: string -> Option<string>, rest: seq<Write>,
                    stop: nat) returns (own: nat)
    ensures var loads := LoadWrites(After(d, first, |first|), name, domainOf);
      && Refreshed(After(d, first + rest, own), After(d, first + loads + rest, stop))
      && (stop >= |first| ==> own >= |first|)
      && (stop >= |first| + |loads| + |rest| ==> own >= |first| + |rest|)
  {
    hide Do, After, LoadWrites, Refreshed;
    var before := After(d, first, |first|);
    var loads := LoadWrites(before, name, domainOf);
    own := if stop <= |first| then stop else if stop <= |first| + |loads| then |first| else stop - |loads|;
    AfterAppend(d, first, rest, own);
    AfterAppend(d, first, loads, stop);
    AfterAppend(d, first + loads, rest, stop);
    RefreshedChains(After(d, first, stop), After(d, first, stop), d);
    if stop <= |first| {
      NothingAfter(After(d, first, stop), rest, 0);
      NothingAfter(After(d, first, stop), loads, 0);
    } else {
      MoreThanEnough(d, first, stop);
      MoreThanEnough(d, first, own);
      LoadRefreshes(before, name, domainOf, stop - |first|);
      var loaded := After(before, loads, stop - |first|);
      NothingAfter(before, rest, 0);
      NothingAfter(loaded, rest, 0);
      AfterRefreshed(before, loaded, rest, own - |first|);
    }
  }

  // The work of a save refines its own writes.
  lemma SaveWorkRefines(d: Disk, dir: string, input: SaveInput, details: Details, domainOf: string -> Option<string>,
                        stop: nat) returns (own: nat)
    ensures var ws, work := SaveWrites(d, dir, input, details), SaveWork(d, dir, input, details, domainOf);
      && Refreshed(After(d, ws, own), After(d, work, stop)) && (stop >= |work| ==> own >= |ws|)
  {
    hide Do, After, LoadWrites, Refreshed, ContentAndIndex, SaveWrites, Normalize;
    var first, rest := [MakeDir(dir)], ContentAndIndex(Normalize(d.index), dir, input, details);
    SaveWritesInTwoParts(d, dir, input, details);
    MakeDirIsNotRead(d, dir, input.name, domainOf);
    OneWrite(d, MakeDir(dir), 1);
    own := LoadBetween(d, first, input.name, domainOf, rest, stop);
  }

  lemma ReplaceWorkRefines(d: Disk, name: string, input: SaveInput, rest: seq<Write>,
                           domainOf: string -> Option<string>, stop: nat) returns (own: nat)
    ensures var loads := ReplaceLoads(d, name, input, domainOf);
      Refreshed(After(d, rest, own), After(d, loads + rest, stop)) && (stop >= |loads| + |rest| ==> own >= |rest|)
  {
    hide Do, After, LoadWrites, Refreshed, Normalize, Resolve;
    var loads := ReplaceLoads(d, name, input, domainOf);
    NothingAfter(d, [], 0);
    assert [] + rest == rest && [] + loads == loads;
    if loads == [] {
      own := stop;
      RefreshedChains(After(d, rest, stop), d, d);
    } else {
      own := LoadBetween(d, [], Resolve(Normalize(d.index), name).value, domainOf, rest, stop);
    }
  }

  // Wherever an operation stops, the disk is one that its own writes pass through, with other handle
  // fields; and once the operation has only its last load to make, all of its own writes are done.
  lemma LoadsOnlyRefresh(d: Disk, c: Command, domainOf: string -> Option<string>, stop: nat) returns (own: nat)
    ensures Refreshed(After(d, OwnWrites(d, c, domainOf), own), After(d, Writes(d, c, domainOf), stop))
    ensures stop >= |Work(d, c, domainOf)| ==> own >= |OwnWrites(d, c, domainOf)|
  {
    hide Do, After, LoadWrites, Refreshed, OwnWrites, Work, LoadedLast;
    var work := Work(d, c, domainOf);
    var worked := stop;
    assert work + [] == work;
    RefreshedChains(After(d, work, stop), d, d);
    if LoadedLast(d, c, domainOf).Some? {
      var name := LoadedLast(d, c, domainOf).value;
      worked := LoadBetween(d, work, name, domainOf, [], stop);
      var loads := LoadWrites(After(d, work, |work|), name, domainOf);
      assert work + loads + [] == work + loads;
    }
    own := WorkRefines(d, c, domainOf, worked);
    RefreshedChains(After(d, OwnWrites(d, c, domainOf), own), After(d, work, worked),
                    After(d, Writes(d, c, domainOf), stop));
  }

  lemma WorkRefines(d: Disk, c: Command, domainOf: string -> Option<string>, stop: nat) returns (own: nat)
    ensures Refreshed(After(d, OwnWrites(d, c, domainOf), own), After(d, Work(d, c, domainOf), stop))
    ensures stop >= |Work(d, c, domainOf)| ==> own >= |OwnWrites(d, c, domainOf)|
  {
    hide Do, After, LoadWrites, Refreshed, SaveTarget, ReplaceTarget, PromoteTarget, Normalize, SaveWrites, SaveWork,
      ReplaceWrites, ReplaceLoads, SavedDetails;
    own := stop;
    RefreshedChains(After(d, OwnWrites(d, c, domainOf), stop), d, d);
    match c
    case Save(input, now) =>
      if SaveTarget(d, input).Ok? {
        own := SaveWorkRefines(d, SaveTarget(d, input).value, input, SavedDetails(d, input, now, domainOf), domainOf,
                               stop);
      }
    case Replace(name, input, now) =>
      own := ReplaceWorkRefines(d, name, input, OwnWrites(d, c, domainOf), domainOf, stop);
    case _ =>
  }
}
