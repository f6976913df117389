// Reading the contact tables back: ListDIDsByHandle and ResolveContactHandleByDID of
// internal/store/dao.go, mergePeerDIDs and syncPeerHandle of internal/message/contact_sync.go.
module ContactLookup {
  import opened Wrappers
  import opened Text
  import opened Distinct
  import opened ContactStore
  import opened ContactColumns

  // ORDER BY is_current DESC, last_seen_at DESC: a comes strictly before b.
  predicate Before(a: Binding, b: Binding) {
    (a.current && !b.current) || (a.current == b.current && a.lastSeen > b.lastSeen)
  }

  // rows is an answer to: SELECT did FROM contact_handle_bindings WHERE owner_did = o AND handle = h ORDER BY ...
  ghost predicate IsListing(bindings: map<Owned<HandleDID>, Binding>, o: string, h: string, rows: seq<string>) {
    && (forall i, j | 0 <= i < j < |rows| :: rows[i] != rows[j])
    && (forall d :: d in rows <==> Bound(bindings, BindingKey(o, h, d)))
    && (forall i, j | 0 <= i < j < |rows| ::
          !Before(bindings[BindingKey(o, h, rows[j])], bindings[BindingKey(o, h, rows[i])]))
  }

  // There is always such an answer.
  lemma ListingExists(bindings: map<Owned<HandleDID>, Binding>, o: string, h: string) returns (rows: seq<string>)
    ensures IsListing(bindings, o, h, rows)
  {
    var keys := set k | k in bindings && k.owner == o && k.id.handle == h;
    var order := InOrder(bindings, keys);
    rows := seq(|order|, i requires 0 <= i < |order| => order[i].id.did);
    forall i | 0 <= i < |rows| ensures order[i] == BindingKey(o, h, rows[i]) {
      assert order[i] in keys;
    }
    forall d ensures d in rows <==> Bound(bindings, BindingKey(o, h, d)) {
      if Bound(bindings, BindingKey(o, h, d)) {
        assert BindingKey(o, h, d) in keys;
        var i :| 0 <= i < |order| && order[i] == BindingKey(o, h, d);
        assert rows[i] == d;
      }
    }
  }

  lemma {:induction false} InOrder(bindings: map<Owned<HandleDID>, Binding>, keys: set<Owned<HandleDID>>)
    returns (order: seq<Owned<HandleDID>>)
    requires keys <= bindings.Keys
    ensures forall k :: k in order <==> k in keys
    ensures forall i, j | 0 <= i < j < |order| ::
      order[i] != order[j] && !Before(bindings[order[j]], bindings[order[i]])
    decreases |keys|
  {
    if keys == {} {
      order := [];
    } else {
      var best := Best(bindings, keys);
      var rest := InOrder(bindings, keys - {best});
      order := [best] + rest;
      forall j | 0 < j < |order| ensures order[0] != order[j] && !Before(bindings[order[j]], bindings[order[0]]) {
        assert rest[j - 1] in rest;
      }
    }
  }

  lemma {:induction false} Best(bindings: map<Owned<HandleDID>, Binding>, keys: set<Owned<HandleDID>>)
    returns (best: Owned<HandleDID>)
    requires keys <= bindings.Keys && keys != {}
    ensures best in keys && forall k | k in keys :: !Before(bindings[k], bindings[best])
    decreases |keys|
  {
    best :| best in keys;
    if keys != {best} {
      assert |keys - {best}| < |keys|;
      var other := Best(bindings, keys - {best});
      best := if Before(bindings[other], bindings[best]) then other else best;
    }
  }

  // holder is the first row of: SELECT did FROM contacts WHERE owner_did = o AND handle = h
  ghost predicate IsHolder(contacts: map<Owned<string>, Contact>, o: string, h: string, holder: Option<string>) {
    match holder
    case Some(d) => Holds(contacts, o, h, d)
    case None => forall d :: !Holds(contacts, o, h, d)
  }

  method ListDIDsByHandle(ghost s: State, ghost o: string, ghost h: string, rows: seq<string>, holder: Option<string>)
    returns (dids: seq<string>)
    requires IsListing(s.bindings, o, h, rows) && IsHolder(s.contacts, o, h, holder)
    requires !Bound(s.bindings, BindingKey(o, h, ""))
    ensures rows != [] ==> dids == rows
    ensures Inv(s) ==> dids == rows
    ensures dids == [] <==> forall d :: !Bound(s.bindings, BindingKey(o, h, d)) && !Holds(s.contacts, o, h, d)
  {
    if rows == [] {
      return match holder case Some(d) => [d] case None => [];
    }
    dids := DistinctNonEmpty(rows);
    NothingToDrop(rows);
    assert rows[0] in rows;
  }

  lemma {:induction false} NothingToDrop(xs: seq<string>)
    requires "" !in xs && forall i, j | 0 <= i < j < |xs| :: xs[i] != xs[j]
    ensures FirstOccurrences(xs) == xs
  {
    if xs != [] {
      var before := xs[..|xs| - 1];
      assert xs == before + [xs[|xs| - 1]];
      NothingToDrop(before);
    }
  }

  // After any run of trimmed calls, a listing starts with the DID of the last call that named the
  // handle and then holds every other DID the handle has ever been bound to, once each, the one seen last first.
  lemma ListingLeadsWithLastNamer(log: seq<Call>, states: seq<State>, n: nat, o: string, h: string, rows: seq<string>)
    requires IsRun(log, states) && n <= |log| && forall c | c in log :: c.a.did == c.a.boundDid
    requires IsListing(states[n].bindings, o, h, rows)
    ensures rows == [] <==> LastNamer(log, n, o, h).None?
    ensures rows != [] ==> LastNamer(log, n, o, h) == Some(rows[0])
    ensures forall d :: d in rows <==> EverBound(log, n, BindingKey(o, h, d))
    ensures forall i, j | 1 <= i < j < |rows| ::
      SeenLast(states[n].bindings, o, h, rows[i]) >= SeenLast(states[n].bindings, o, h, rows[j])
  {
    TablesReplayLog(log, states, n);
    var s := states[n];
    OthersByTime(s.bindings, o, h, rows);
    forall d ensures d in rows <==> EverBound(log, n, BindingKey(o, h, d)) {
      assert d in rows <==> Bound(s.bindings, BindingKey(o, h, d));
    }
    ListingHead(s, o, h, rows);
    if rows != [] {
      assert IsCurrent(s.bindings, o, h, rows[0]) <==> LastNamer(log, n, o, h) == Some(rows[0]);
    } else {
      forall d ensures LastNamer(log, n, o, h) != Some(d) {
        assert IsCurrent(s.bindings, o, h, d) <==> LastNamer(log, n, o, h) == Some(d);
      }
      var last := LastNamer(log, n, o, h);
      assert last == None || last == Some(last.GetOr(""));
    }
  }

  function SeenLast(bindings: map<Owned<HandleDID>, Binding>, o: string, h: string, d: string): int {
    var k := BindingKey(o, h, d);
    if k in bindings then bindings[k].lastSeen else 0
  }

  lemma OthersByTime(bindings: map<Owned<HandleDID>, Binding>, o: string, h: string, rows: seq<string>)
    requires OneCurrent(bindings) && IsListing(bindings, o, h, rows)
    ensures forall i, j | 1 <= i < j < |rows| :: SeenLast(bindings, o, h, rows[i]) >= SeenLast(bindings, o, h, rows[j])
  {
    forall i | 0 <= i < |rows| ensures Bound(bindings, BindingKey(o, h, rows[i])) {
      assert rows[i] in rows;
    }
    forall i, j | 1 <= i < j < |rows|
      ensures SeenLast(bindings, o, h, rows[i]) >= SeenLast(bindings, o, h, rows[j])
    {
      assert IsCurrent(bindings, o, h, rows[i]) ==> !IsCurrent(bindings, o, h, rows[0]);
      assert !Before(bindings[BindingKey(o, h, rows[j])], bindings[BindingKey(o, h, rows[i])]);
      assert !Before(bindings[BindingKey(o, h, rows[i])], bindings[BindingKey(o, h, rows[0])]);
    }
  }

  lemma ListingHead(s: State, o: string, h: string, rows: seq<string>)
    requires SomeCurrent(s.bindings) && IsListing(s.bindings, o, h, rows)
    ensures if rows != [] then IsCurrent(s.bindings, o, h, rows[0]) else forall d :: !IsCurrent(s.bindings, o, h, d)
  {
    if rows != [] {
      var d := CurrentRow(s.bindings, o, h, rows[0]) by {
        assert rows[0] in rows;
      }
      FirstRowIsBest(s.bindings, o, h, rows, d);
    } else {
      forall d ensures !IsCurrent(s.bindings, o, h, d) {
        assert !Bound(s.bindings, BindingKey(o, h, d));
      }
    }
  }

  lemma CurrentRow(bindings: map<Owned<HandleDID>, Binding>, o: string, h: string, any: string) returns (d: string)
    requires SomeCurrent(bindings) && Bound(bindings, BindingKey(o, h, any))
    ensures IsCurrent(bindings, o, h, d) && Bound(bindings, BindingKey(o, h, d))
  {
    var k := BindingKey(o, h, any);
    d :| IsCurrent(bindings, k.owner, k.id.handle, d);
  }

  lemma FirstRowIsBest(bindings: map<Owned<HandleDID>, Binding>, o: string, h: string, rows: seq<string>, d: string)
    requires IsListing(bindings, o, h, rows) && Bound(bindings, BindingKey(o, h, d)) && IsCurrent(bindings, o, h, d)
    ensures rows != [] && IsCurrent(bindings, o, h, rows[0])
  {
    var i :| 0 <= i < |rows| && rows[i] == d;
    assert rows[0] in rows;
    if i > 0 {
      assert !Before(bindings[BindingKey(o, h, rows[i])], bindings[BindingKey(o, h, rows[0])]);
    }
  }

  function TrimAll(xs: seq<string>): (r: seq<string>)
    ensures |r| == |xs| && forall i | 0 <= i < |xs| :: r[i] == TrimSpace(xs[i])
  {
    if xs == [] then [] else [TrimSpace(xs[0])] + TrimAll(xs[1..])
  }

  method MergePeerDIDs(current: string, historical: seq<string>) returns (result: seq<string>)
    ensures result == FirstOccurrences(TrimAll([current] + historical))
  {
    result := DistinctNonEmpty(TrimAll([current] + historical));
  }

  // The merged list starts with the current DID when there is one and leaves none out.
  lemma MergedDIDsLeadWithCurrent(current: string, historical: seq<string>)
    ensures var r := FirstOccurrences(TrimAll([current] + historical));
      && (TrimSpace(current) != "" ==> r != [] && r[0] == TrimSpace(current))
      && (forall d | d in historical && TrimSpace(d) != "" :: TrimSpace(d) in r)
  {
    var xs := TrimAll([current] + historical);
    FirstOccurrencesSpec(xs);
    forall d | d in historical && TrimSpace(d) != "" ensures TrimSpace(d) in FirstOccurrences(xs) {
      var i :| 0 <= i < |historical| && historical[i] == d;
      assert xs[i + 1] == TrimSpace(([current] + historical)[i + 1]);
    }
    if xs[0] != "" {
      FirstStaysFirst(xs);
    }
  }

  lemma FirstStaysFirst(xs: seq<string>)
    requires xs != [] && xs[0] != ""
    ensures FirstOccurrences(xs) != [] && FirstOccurrences(xs)[0] == xs[0]
  {
    var r := FirstOccurrences(xs);
    FirstOccurrencesSpec(xs);
    assert xs[0] in r;
    assert FirstIndex(xs, xs[0]) == 0;
    assert forall j | 0 < j < |r| :: FirstIndex(xs, r[0]) < FirstIndex(xs, r[j]);
  }

  // ResolveContactHandleByDID may answer h: the contact's handle when it shows one, else the
  // handle of the best binding of the DID, else "".
  ghost predicate MayResolve(s: State, o: string, d: string, h: string) {
    if exists shown :: shown != "" && Holds(s.contacts, o, shown, d) then Holds(s.contacts, o, h, d)
    else if exists g :: Bound(s.bindings, BindingKey(o, g, d)) then
      && Bound(s.bindings, BindingKey(o, h, d))
      && forall g | Bound(s.bindings, BindingKey(o, g, d)) ::
           !Before(s.bindings[BindingKey(o, g, d)], s.bindings[BindingKey(o, h, d)])
    else h == ""
  }

  // And it always resolves to something.
  lemma SomethingResolves(s: State, o: string, d: string) returns (h: string)
    ensures MayResolve(s, o, d, h)
  {
    if shown :| shown != "" && Holds(s.contacts, o, shown, d) {
      h := shown;
    } else if g :| Bound(s.bindings, BindingKey(o, g, d)) {
      var keys := set k | k in s.bindings && k.owner == o && k.id.did == d;
      assert BindingKey(o, g, d) in keys;
      var best := Best(s.bindings, keys);
      h := best.id.handle;
      assert best == BindingKey(o, h, d);
    } else {
      h := "";
    }
  }

  // normalizeHandleValue: lower case, no wba:// prefix, cut at a dot that is not the first character.
  function NormalizeHandleValue(value: string): string {
    var v := TrimPrefix(TrimSpace(Lower(value)), "wba://");
    match IndexOf(v, '.')
    case Some(i) => if i > 0 then v[..i] else v
    case None => v
  }

  // It is what stands before the first dot of the trimmed lower-case text without its scheme, or all of it
  // when there is no dot or it is in front.
  lemma HandleValueByText(value: string)
    ensures var r, text := NormalizeHandleValue(value), TrimSpace(Lower(value));
      var bare := if "wba://" <= text then text[6..] else text;
      && r <= bare
      && (r == bare ==> '.' !in bare || bare[0] == '.')
      && (r != bare ==> r != "" && '.' !in r && bare[|r|] == '.')
  {
    hide TrimSpace, Lower;
  }

  // A DID resolves to the handle its contact shows. Without one the binding the handle is taken from is current
  // if any of the DID's is, and none that is alike was seen later.
  lemma ResolvedIsBest(s: State, o: string, d: string, h: string)
    requires MayResolve(s, o, d, h)
    ensures forall shown | shown != "" && Holds(s.contacts, o, shown, d) :: h == shown
    ensures h == "" || Holds(s.contacts, o, h, d) || Bound(s.bindings, BindingKey(o, h, d))
    ensures (forall shown :: shown != "" ==> !Holds(s.contacts, o, shown, d)) ==>
      forall g | Bound(s.bindings, BindingKey(o, g, d)) ::
        var best, other := BindingKey(o, h, d), BindingKey(o, g, d);
        && best in s.bindings && (IsCurrent(s.bindings, o, g, d) ==> IsCurrent(s.bindings, o, h, d))
        && ((IsCurrent(s.bindings, o, g, d) <==> IsCurrent(s.bindings, o, h, d)) ==>
              s.bindings[best].lastSeen >= s.bindings[other].lastSeen)
  {}

  // The handle syncPeerHandle writes for the peer, if any: the one the message names, else the one the
  // tables resolve, else the one the server knows (remote is None when the lookup fails).
  function SyncHandle(owner: string, peer: string, known: string, resolved: string, remote: Option<string>): string {
    if owner == "" || peer == "" || owner == peer then ""
    else if NormalizeHandleValue(known) != "" then NormalizeHandleValue(known)
    else if resolved != "" then resolved
    else match remote case Some(r) => NormalizeHandleValue(r) case None => ""
  }

  predicate NothingToSync(owner: string, peer: string) {
    owner == "" || peer == "" || owner == peer
  }

  // remote is what the server answers when it is asked. On every failure, and when nobody knows a handle,
  // the handle the tables resolve is returned.
  method SyncPeerHandle(store: Store, ownerDID: string, peerDID: string, known: string, resolved: string,
                        remote: Option<string>, sourceType: string, sourceGroupID: string, now: int, failed: bool)
    returns (handle: string, asked: bool, ghost cleared: Option<string>)
    requires MayResolve(State(store.contacts, store.bindings), TrimSpace(ownerDID), TrimSpace(peerDID), resolved)
    modifies store
    ensures var owner, peer := TrimSpace(ownerDID), TrimSpace(peerDID);
      var before, after := State(old(store.contacts), old(store.bindings)), State(store.contacts, store.bindings);
      var h := SyncHandle(owner, peer, known, resolved, remote);
      var a := Arguments(SyncRecord(owner, peer, h, sourceType, sourceGroupID, now));
      if h == "" || failed
      then after == before && handle == if NothingToSync(owner, peer) then "" else resolved
      else handle == h && MayClear(before, a, cleared) && after == Upsert(before, a, now, cleared)
    ensures asked <==>
      !NothingToSync(TrimSpace(ownerDID), TrimSpace(peerDID)) && NormalizeHandleValue(known) == "" && resolved == ""
  {
    hide MayResolve, MayClear, Upsert, NormalizeHandleValue, Arguments;
    handle, asked, cleared := "", false, None;
    var owner, peer := TrimSpace(ownerDID), TrimSpace(peerDID);
    if owner == "" || peer == "" || owner == peer {
      return;
    }
    handle := NormalizeHandleValue(known);
    if handle == "" {
      handle := resolved;
    }
    if handle == "" {
      asked := true;
      if remote.None? {
        return resolved, asked, None;
      }
      handle := NormalizeHandleValue(remote.value);
    }
    if handle == "" {
      return resolved, asked, None;
    }
    TrimSpaceTrims(peerDID);
    var ok;
    ok, cleared := store.UpsertContact(SyncRecord(owner, peer, handle, sourceType, sourceGroupID, now), now, failed);
    if !ok {
      handle := resolved;
    }
  }

  function SyncRecord(owner: string, peer: string, handle: string, sourceType: string, sourceGroupID: string,
                      now: int): Record
  {
    Record(owner, peer, handle, map[SourceType := sourceType, SourceGroupID := sourceGroupID], None, Some(true),
           Some(now), Some(now), "")
  }

  // What a synchronised message writes: the contact has been messaged, shows the handle and where the message
  // came from, and both its times are now; the binding is current and keeps the time it was first seen.
  lemma SyncIsShown(s: State, o: string, d: string, h: string, sourceType: string, sourceGroupID: string, now: int,
                    cleared: Option<string>)
    requires Trimmed(o) && Trimmed(d) && Trimmed(h) && d != "" && h != ""
    requires MayClear(s, Arguments(SyncRecord(o, d, h, sourceType, sourceGroupID, now)), cleared)
    ensures var t := Upsert(s, Arguments(SyncRecord(o, d, h, sourceType, sourceGroupID, now)), now, cleared);
      var k, b := ContactKey(o, d), BindingKey(o, h, d);
      && k in t.contacts && t.contacts[k].handle == Some(h) && t.contacts[k].messaged
      && t.contacts[k].firstSeen == now && t.contacts[k].lastSeen == now
      && t.contacts[k].followed == (k in s.contacts && s.contacts[k].followed)
      && (TrimSpace(sourceType) != "" ==> At(t.contacts[k].text, SourceType) == Some(TrimSpace(sourceType)))
      && (TrimSpace(sourceGroupID) != "" ==> At(t.contacts[k].text, SourceGroupID) == Some(TrimSpace(sourceGroupID)))
      && (forall c | c != SourceType && c != SourceGroupID ::
            At(t.contacts[k].text, c) == if k in s.contacts then At(s.contacts[k].text, c) else None)
      && b in t.bindings && t.bindings[b].current && t.bindings[b].lastSeen == now && t.bindings[b].credentialName == ""
      && t.bindings[b].firstSeen == (if b in s.bindings then s.bindings[b].firstSeen else now)
  {
    hide Upsert, MayClear, TrimSpace, Arguments, BindHandle, Trimmed;
    var r := SyncRecord(o, d, h, sourceType, sourceGroupID, now);
    SyncArguments(o, d, h, sourceType, sourceGroupID, now);
    ArgumentsByField(r);
    ContactAfter(s, Arguments(r), now, cleared, o, d);
    BindingAfter(s.bindings, Arguments(r), now, o, h, d);
    NewHandle(s, Arguments(r), now, cleared);
    EmptyIsBlank();
  }

  lemma NewHandle(s: State, a: Args, now: int, cleared: Option<string>)
    requires a.handle.Some?
    ensures var t, k := Upsert(s, a, now, cleared), ContactKey(a.owner, a.did);
      k in t.contacts && t.contacts[k].handle == a.handle && t.bindings == BindHandle(s.bindings, a, now)
  {}

  lemma SyncArguments(o: string, d: string, h: string, sourceType: string, sourceGroupID: string, now: int)
    requires Trimmed(o) && Trimmed(d) && Trimmed(h) && d != "" && h != ""
    ensures var a := Arguments(SyncRecord(o, d, h, sourceType, sourceGroupID, now));
      a.owner == o && a.did == a.boundDid == d && a.handle == Some(h)
  {
    TrimSpaceTrims(o);
    TrimSpaceTrims(h);
  }

  // Writing the handle makes the DID its only holder and its current binding.
  lemma WriterHoldsHandle(s: State, a: Args, h: string, now: int, cleared: Option<string>)
    requires Inv(s) && MayClear(s, a, cleared) && a.did == a.boundDid && a.handle == Some(h)
    ensures var t := Upsert(s, a, now, cleared);
      && IsCurrent(t.bindings, a.owner, h, a.did) && Holds(t.contacts, a.owner, h, a.did)
      && forall e | e != a.did :: !IsCurrent(t.bindings, a.owner, h, e) && !Holds(t.contacts, a.owner, h, e)
  {
    UpsertKeepsInv(s, a, now, cleared);
    CurrentAfter(s.bindings, a, now, a.owner, h, a.did);
    HoldersAfter(s, a, now, cleared, a.owner, h, a.did);
  }

  // A DID that has lost its handle to another DID takes it back on the next synchronised message
  // that names no handle: the handle comes from its old binding, so the server is not asked.
  lemma LostHandleIsTakenBack(s: State, o: string, d: string, h: string, sourceType: string, sourceGroupID: string,
                              now: int, cleared: Option<string>)
    requires Inv(s) && Trimmed(o) && Trimmed(d) && Trimmed(h) && h != "" && !NothingToSync(o, d)
    requires forall g :: !Holds(s.contacts, o, g, d)
    requires exists g :: Bound(s.bindings, BindingKey(o, g, d))
    requires MayResolve(s, o, d, h)
    requires MayClear(s, Arguments(SyncRecord(o, d, h, sourceType, sourceGroupID, now)), cleared)
    ensures SyncHandle(o, d, "", h, None) == h
    ensures var t := Upsert(s, Arguments(SyncRecord(o, d, h, sourceType, sourceGroupID, now)), now, cleared);
      && IsCurrent(t.bindings, o, h, d) && Holds(t.contacts, o, h, d)
      && forall e | e != d :: !IsCurrent(t.bindings, o, h, e) && !Holds(t.contacts, o, h, e)
  {
    hide Upsert, Arguments, SyncRecord, MayClear, Inv, MayResolve, Trimmed, Holds, IsCurrent;
    SyncArguments(o, d, h, sourceType, sourceGroupID, now);
    WriterHoldsHandle(s, Arguments(SyncRecord(o, d, h, sourceType, sourceGroupID, now)), h, now, cleared);
    NoHandleNamed();
  }

  lemma NoHandleNamed()
    ensures NormalizeHandleValue("") == ""
  {
    assert Lower("") == "";
    EmptyIsBlank();
  }
}
