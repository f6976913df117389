// List of internal/identity/store.go: entries without a full handle are loaded, and so written back, on the way.
module IdentityListing {
  import opened Wrappers
  import opened Text
  import opened IdentityIndex
  import opened IdentityLoad

  // No other entry uses the directory.
  predicate Unshared(ix: Index, n: string) {
    n in ix.credentials && forall m | m in ix.credentials && m != n ::
      ix.credentials[m].dirName != ix.credentials[n].dirName
  }

  // Entry and directory of n are the same on both disks.
  ghost predicate Untouched(a: Disk, b: Disk, n: string) {
    var i, j := Normalize(a.index), Normalize(b.index);
    && n in i.credentials && n in j.credentials && j.credentials[n] == i.credentials[n]
    && var dir := i.credentials[n].dirName;
      (dir in a.dirs <==> dir in b.dirs) && (dir in a.dirs ==> b.dirs[dir] == a.dirs[dir])
  }

  // What is listed of the disk d: every name, an entry with its full handle as it is, and of an identity that
  // has its directory to itself exactly the summary on d.
  ghost predicate Listed(d: Disk, names: seq<string>, summaries: seq<Summary>, domainOf: string -> Option<string>) {
    var ix := Normalize(d.index);
    && |summaries| == |names|
    && forall i | 0 <= i < |names| ::
      && names[i] in ix.credentials && summaries[i].name == names[i]
      && (IsComplete(ix, names[i]) ==> ReportsEntry(summaries[i], ix.credentials[names[i]]))
      && (Unshared(ix, names[i]) ==> Summarize(d, ix.credentials[names[i]], domainOf) == Ok(summaries[i]))
  }

  // The entry has its full handle.
  predicate IsComplete(ix: Index, n: string) {
    n in ix.credentials && !Blank(ix.credentials[n].details.fullHandle)
  }

  predicate ReportsEntry(s: Summary, e: Entry) {
    s.name == e.name && s.dirName == e.dirName && s.did == e.did && s.details == e.details
  }

  ghost predicate Unreadable(d: Disk, n: string, domainOf: string -> Option<string>) {
    n in Normalize(d.index).credentials && Summarize(d, Normalize(d.index).credentials[n], domainOf).Err?
  }

  // Wherever a listing stops, only handle fields have changed. A completed one has every entry once, and with
  // two writes left for each entry it fails exactly when one of them cannot be summarised.
  lemma ListIsComplete(d: Disk, names: seq<string>, domainOf: string -> Option<string>, budget: nat)
    requires Ascending(names, Normalize(d.index).credentials.Keys)
    ensures var out := Listing(d, Normalize(d.index), names, domainOf, budget);
      && Refreshed(d, out.disk)
      && (out.result.Ok? ==> Listed(d, names, out.result.value, domainOf))
      && (budget >= 2 * |names| ==> (out.result.Err? <==> exists n :: Unreadable(d, n, domainOf)))
  {
    hide Normalize, Refreshed, Listed, Untouched, Less, Unreadable, Listing;
    RefreshedChains(d, d, d);
    forall i, j | 0 <= i < j < |names| ensures names[i] != names[j] {
      LessIsTotal(names[i], names[j]);
    }
    forall n | n in names ensures Untouched(d, d, n) {
      SameIsUntouched(d, n);
    }
    ListRest(d, d, names, domainOf, budget);
    forall n | Unreadable(d, n, domainOf) ensures n in names {
      UnreadableIsLive(d, n, domainOf);
    }
  }

  lemma SameIsUntouched(d: Disk, n: string)
    requires n in Normalize(d.index).credentials
    ensures Untouched(d, d, n)
  {}

  lemma UnreadableIsLive(d: Disk, n: string, domainOf: string -> Option<string>)
    requires Unreadable(d, n, domainOf)
    ensures n in Normalize(d.index).credentials.Keys
  {}

  // The rest of a listing that has come as far as b.
  lemma {:induction false} ListRest(d: Disk, b: Disk, names: seq<string>, domainOf: string -> Option<string>,
                                    budget: nat)
    requires Refreshed(d, b) && forall n | n in names :: n in Normalize(d.index).credentials
    requires forall i, j | 0 <= i < j < |names| :: names[i] != names[j]
    requires forall n | n in names :: Unshared(Normalize(d.index), n) ==> Untouched(d, b, n)
    ensures var out := Listing(b, Normalize(d.index), names, domainOf, budget);
      && Refreshed(d, out.disk)
      && (out.result.Ok? ==> Listed(d, names, out.result.value, domainOf))
      && (budget >= 2 * |names| ==> (out.result.Err? <==> exists n | n in names :: Unreadable(d, n, domainOf)))
    decreases |names|
  {
    hide Normalize, Refreshed, Untouched, Unshared, Unreadable, Summarizing, Summarize, Listed, IsComplete,
      ReportsEntry;
    var ix := Normalize(d.index);
    if names == [] {
      NothingListed(d, domainOf);
    } else {
      var n, rest := names[0], names[1..];
      var first := Summarizing(b, ix.credentials[n], domainOf, budget);
      assert n in names && forall m | m in rest :: m in names;
      OneIsSummarised(d, b, n, domainOf, budget);
      forall m | m in rest ensures m != n && (Unshared(ix, m) ==> Untouched(d, first.disk, m)) {
        var i :| 0 <= i < |rest| && rest[i] == m;
        assert names[i + 1] == m && names[0] != names[i + 1];
        StaysUntouched(d, b, first.disk, n, m);
      }
      ListRest(d, first.disk, rest, domainOf, first.budget);
      assert forall m | m in names :: m == n || m in rest;
      var more := Listing(first.disk, ix, rest, domainOf, first.budget).result;
      if first.result.Ok? && more.Ok? {
        OneMoreIsListed(d, names, first.result.value, more.value, domainOf);
      }
    }
  }

  lemma NothingListed(d: Disk, domainOf: string -> Option<string>)
    ensures Listed(d, [], [], domainOf)
  {}

  lemma OneMoreIsListed(d: Disk, names: seq<string>, s: Summary, more: seq<Summary>,
                        domainOf: string -> Option<string>)
    requires names != [] && names[0] in Normalize(d.index).credentials && s.name == names[0]
    requires IsComplete(Normalize(d.index), names[0]) ==> ReportsEntry(s, Normalize(d.index).credentials[names[0]])
    requires Unshared(Normalize(d.index), names[0]) ==>
      Summarize(d, Normalize(d.index).credentials[names[0]], domainOf) == Ok(s)
    requires Listed(d, names[1..], more, domainOf)
    ensures Listed(d, names, [s] + more, domainOf)
  {
    hide Normalize, Unshared, Summarize, IsComplete, ReportsEntry;
    assert forall i | 1 <= i < |names| :: names[i] == names[1..][i - 1] && ([s] + more)[i] == more[i - 1];
  }

  lemma OneIsSummarised(d: Disk, b: Disk, n: string, domainOf: string -> Option<string>, budget: nat)
    requires Refreshed(d, b) && n in Normalize(d.index).credentials
    requires Unshared(Normalize(d.index), n) ==> Untouched(d, b, n)
    ensures var e := Normalize(d.index).credentials[n];
      var first := Summarizing(b, e, domainOf, budget);
      && Refreshed(d, first.disk) && OthersStay(b, first.disk, n)
      && (first.result.Ok? ==> first.result.value.name == n)
      && (first.result.Ok? && IsComplete(Normalize(d.index), n) ==> ReportsEntry(first.result.value, e))
      && (first.result.Ok? && Unshared(Normalize(d.index), n) ==> Summarize(d, e, domainOf) == first.result)
      && (budget >= 2 ==> (first.result.Err? <==> Unreadable(d, n, domainOf)) && first.budget >= budget - 2)
  {
    hide Normalize, Refreshed, Untouched, Unshared, OthersStay, After, LoadWrites, TrimSpace, Read;
    var e := Normalize(d.index).credentials[n];
    EntryHasName(d, n);
    SameNames(d, b);
    SameReading(d, b, n, domainOf);
    ReadKeepsName(b, n, domainOf);
    NothingAfter(b, [], budget);
    NothingAfter(b, LoadWrites(b, n, domainOf), 0);
    var stop := if Blank(e.details.fullHandle) && !Blank(e.name) then budget else 0;
    LoadRefreshes(b, n, domainOf, stop);
    LoadLeavesOthers(b, n, domainOf, stop);
    RefreshedChains(d, b, After(b, LoadWrites(b, n, domainOf), stop));
  }

  lemma EntryHasName(d: Disk, n: string)
    requires n in Normalize(d.index).credentials
    ensures Normalize(d.index).credentials[n].name == n
  {}

  lemma SameNames(a: Disk, b: Disk)
    requires Refreshed(a, b)
    ensures Normalize(a.index).credentials.Keys == Normalize(b.index).credentials.Keys
  {
    hide Normalize;
  }

  lemma ReadKeepsName(d: Disk, n: string, domainOf: string -> Option<string>)
    requires n in Normalize(d.index).credentials
    ensures Read(d, n, domainOf).Ok? ==> Read(d, n, domainOf).value.name == n
  {
    hide WithStoredHandles, MergedDetails, Normalize;
  }

  // Whether it can be read is the same on both disks, and so is what is read when nothing has touched it.
  lemma SameReading(d: Disk, b: Disk, n: string, domainOf: string -> Option<string>)
    requires Refreshed(d, b) && n in Normalize(d.index).credentials
    ensures Read(b, n, domainOf).Err? == Read(d, n, domainOf).Err?
    ensures Untouched(d, b, n) ==> Read(b, n, domainOf) == Read(d, n, domainOf)
  {
    hide WithStoredHandles, MergedDetails, Normalize;
  }

  lemma StaysUntouched(d: Disk, b: Disk, c: Disk, n: string, m: string)
    requires Refreshed(d, b) && Refreshed(d, c) && OthersStay(b, c, n) && m != n
    requires m in Normalize(d.index).credentials && n in Normalize(d.index).credentials
    requires Unshared(Normalize(d.index), m) ==> Untouched(d, b, m)
    ensures Unshared(Normalize(d.index), m) ==> Untouched(d, c, m)
  {
    hide Normalize, SameDirectory;
    var ix := Normalize(d.index);
    assert Normalize(b.index).credentials[n].dirName == ix.credentials[n].dirName;
    assert c.dirs.Keys == d.dirs.Keys;
  }
}
