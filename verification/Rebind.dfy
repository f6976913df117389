// internal/store/dao.go: RebindOwnerDID and ClearOwnerE2EEData, run one after the other by
// internal/store/rebind.go.
module Rebind {
  import opened Wrappers
  import opened Text
  import opened ContactStore

  // ---- UPDATE OR IGNORE t SET owner_did = new WHERE owner_did = old ----

  // index(id, row) is the row's entry in a second unique index, per owner; None when the row has none.
  predicate Clash<K(==), V, I(==)>(t: map<Owned<K>, V>, owner: string, id: K, row: V, index: (K, V) -> Option<I>) {
    || Owned(owner, id) in t
    || (index(id, row).Some? && exists k | k in t :: k.owner == owner && index(k.id, t[k]) == index(id, row))
  }

  ghost predicate IndexUnique<K, V, I>(t: map<Owned<K>, V>, index: (K, V) -> Option<I>) {
    forall k, l | k in t && l in t && k.owner == l.owner && index(k.id, t[k]).Some?
      && index(k.id, t[k]) == index(l.id, t[l]) :: k == l
  }

  // A row of the old owner moves unless the new owner already has its key or its index entry.
  predicate Moves<K(==), V, I(==)>(t: map<Owned<K>, V>, oldOwner: string, newOwner: string, id: K,
                                   index: (K, V) -> Option<I>)
  {
    Owned(oldOwner, id) in t && !Clash(t, newOwner, id, t[Owned(oldOwner, id)], index)
  }

  // The table after exactly the given rows of the old owner have changed owner.
  ghost predicate Shifted<K(!new), V>(t: map<Owned<K>, V>, after: map<Owned<K>, V>, oldOwner: string,
                                      newOwner: string, moved: set<K>)
  {
    && |after| == |t|
    && (forall k: Owned<K> | k.owner != oldOwner && k.owner != newOwner :: k in after <==> k in t)
    && (forall id :: Owned(oldOwner, id) in after <==> Owned(oldOwner, id) in t && id !in moved)
    && (forall id :: Owned(newOwner, id) in after <==> Owned(newOwner, id) in t || id in moved)
    && (forall id | id in moved :: Owned(oldOwner, id) in t && Owned(newOwner, id) !in t)
    && (forall k | k in after && k in t :: after[k] == t[k])
    && (forall id | id in moved :: after[Owned(newOwner, id)] == t[Owned(oldOwner, id)])
  }

  ghost function Movers<K, V, I>(t: map<Owned<K>, V>, oldOwner: string, newOwner: string,
                                 index: (K, V) -> Option<I>): set<K>
  {
    set k | k in t && k.owner == oldOwner && Moves(t, oldOwner, newOwner, k.id, index) :: k.id
  }

  // order is the order in which the database visits the old owner's rows: it does not matter.
  method UpdateOrIgnore<K(==, !new), V, I(==)>(t: map<Owned<K>, V>, oldOwner: string, newOwner: string,
                                               index: (K, V) -> Option<I>, order: seq<K>)
    returns (after: map<Owned<K>, V>)
    requires oldOwner != newOwner && IndexUnique(t, index)
    requires forall id :: id in order <==> Owned(oldOwner, id) in t
    requires forall i, j | 0 <= i < j < |order| :: order[i] != order[j]
    ensures Shifted(t, after, oldOwner, newOwner, Movers(t, oldOwner, newOwner, index))
  {
    hide Shifted, Movers, MoversAmong, IndexUnique, MoveRow, Clash;
    after := t;
    ghost var moved: set<K> := {};
    NothingShifted(t, oldOwner, newOwner, index);
    for i := 0 to |order|
      invariant moved == MoversAmong(t, oldOwner, newOwner, index, order[..i])
      invariant Shifted(t, after, oldOwner, newOwner, moved)
    {
      var id := order[i];
      assert id in order && id !in order[..i];
      assert order[..i + 1] == order[..i] + [id];
      AmongStep(t, oldOwner, newOwner, index, order[..i], id);
      ClashIsStable(t, after, oldOwner, newOwner, index, moved, id);
      if !Clash(after, newOwner, id, after[Owned(oldOwner, id)], index) {
        MoveRowShifts(t, after, oldOwner, newOwner, moved, id);
        after := MoveRow(after, oldOwner, newOwner, id);
        moved := moved + {id};
      }
    }
    AmongAll(t, oldOwner, newOwner, index, order);
    assert order[..|order|] == order;
  }

  ghost function MoversAmong<K, V, I>(t: map<Owned<K>, V>, oldOwner: string, newOwner: string,
                                      index: (K, V) -> Option<I>, order: seq<K>): set<K>
  {
    set id | id in order && Moves(t, oldOwner, newOwner, id, index)
  }

  lemma NothingShifted<K(!new), V, I>(t: map<Owned<K>, V>, oldOwner: string, newOwner: string,
                                      index: (K, V) -> Option<I>)
    requires oldOwner != newOwner
    ensures Shifted(t, t, oldOwner, newOwner, {}) && MoversAmong(t, oldOwner, newOwner, index, []) == {}
  {
  }

  lemma AmongStep<K, V, I>(t: map<Owned<K>, V>, oldOwner: string, newOwner: string,
                           index: (K, V) -> Option<I>, order: seq<K>, id: K)
    ensures MoversAmong(t, oldOwner, newOwner, index, order + [id]) ==
      MoversAmong(t, oldOwner, newOwner, index, order) + if Moves(t, oldOwner, newOwner, id, index) then {id} else {}
    ensures id !in order ==> id !in MoversAmong(t, oldOwner, newOwner, index, order)
  {
    hide Moves;
  }

  lemma AmongAll<K(!new), V, I>(t: map<Owned<K>, V>, oldOwner: string, newOwner: string, index: (K, V) -> Option<I>,
                                order: seq<K>)
    requires forall id :: id in order <==> Owned(oldOwner, id) in t
    ensures MoversAmong(t, oldOwner, newOwner, index, order) == Movers(t, oldOwner, newOwner, index)
  {
  }

  function MoveRow<K(==), V>(t: map<Owned<K>, V>, oldOwner: string, newOwner: string, id: K): map<Owned<K>, V>
    requires Owned(oldOwner, id) in t
  {
    (t - {Owned(oldOwner, id)})[Owned(newOwner, id) := t[Owned(oldOwner, id)]]
  }

  lemma MoveRowShifts<K(!new), V>(t: map<Owned<K>, V>, after: map<Owned<K>, V>, oldOwner: string, newOwner: string,
                                  moved: set<K>, id: K)
    requires oldOwner != newOwner && Shifted(t, after, oldOwner, newOwner, moved)
    requires id !in moved && Owned(oldOwner, id) in t && Owned(newOwner, id) !in after
    ensures Shifted(t, MoveRow(after, oldOwner, newOwner, id), oldOwner, newOwner, moved + {id})
  {
    var from, to := Owned(oldOwner, id), Owned(newOwner, id);
    var next := MoveRow(after, oldOwner, newOwner, id);
    assert next.Keys == after.Keys - {from} + {to};
    assert |next.Keys| == |after.Keys|;
  }

  // Moving other rows first does not change whether a row can move: keys are distinct, and the
  // rows of one owner have distinct index entries.
  lemma ClashIsStable<K(!new), V, I>(t: map<Owned<K>, V>, after: map<Owned<K>, V>, oldOwner: string, newOwner: string,
                                     index: (K, V) -> Option<I>, moved: set<K>, id: K)
    requires oldOwner != newOwner && IndexUnique(t, index)
    requires Shifted(t, after, oldOwner, newOwner, moved)
    requires id !in moved && Owned(oldOwner, id) in t
    ensures Owned(oldOwner, id) in after && after[Owned(oldOwner, id)] == t[Owned(oldOwner, id)]
    ensures Clash(after, newOwner, id, t[Owned(oldOwner, id)], index)
      <==> Clash(t, newOwner, id, t[Owned(oldOwner, id)], index)
    ensures !Clash(after, newOwner, id, t[Owned(oldOwner, id)], index) ==> Owned(newOwner, id) !in after
  {
    var row := t[Owned(oldOwner, id)];
    if k :| k in after && k.owner == newOwner && index(id, row).Some? && index(k.id, after[k]) == index(id, row) {
      assert k == Owned(newOwner, k.id);
      assert k !in t ==> Owned(oldOwner, k.id) in t;
    }
    if k :| k in t && k.owner == newOwner && index(id, row).Some? && index(k.id, t[k]) == index(id, row) {
      assert k == Owned(newOwner, k.id) && k in after;
    }
  }

  // after is t with the old owner's name replaced by the new one.
  ghost predicate Renamed<K(!new), V>(t: map<Owned<K>, V>, after: map<Owned<K>, V>, oldOwner: string,
                                      newOwner: string)
  {
    && (forall k | k in t :: k.owner != newOwner)
    && (forall k: Owned<K> :: k in after <==> k.owner != oldOwner && Source(k, oldOwner, newOwner) in t)
    && (forall k | k in after :: after[k] == t[Source(k, oldOwner, newOwner)])
  }

  function Source<K>(k: Owned<K>, oldOwner: string, newOwner: string): Owned<K> {
    if k.owner == newOwner then Owned(oldOwner, k.id) else k
  }

  // Into an owner with no rows the move is an exact renaming, and moving back restores the table.
  lemma EmptyOwnerIsRenamed<K(!new), V, I>(t: map<Owned<K>, V>, after: map<Owned<K>, V>, oldOwner: string,
                                           newOwner: string, index: (K, V) -> Option<I>)
    requires oldOwner != newOwner && forall k | k in t :: k.owner != newOwner
    requires Shifted(t, after, oldOwner, newOwner, Movers(t, oldOwner, newOwner, index))
    ensures Renamed(t, after, oldOwner, newOwner)
  {
    forall id | Owned(oldOwner, id) in t ensures id in Movers(t, oldOwner, newOwner, index) {
      assert Moves(t, oldOwner, newOwner, id, index);
      assert Owned(oldOwner, id).id == id;
    }
  }

  lemma RebindRoundTrip<K(!new), V, I>(t: map<Owned<K>, V>, there: map<Owned<K>, V>, back: map<Owned<K>, V>,
                                       oldOwner: string, newOwner: string, index: (K, V) -> Option<I>)
    requires oldOwner != newOwner && forall k | k in t :: k.owner != newOwner
    requires Shifted(t, there, oldOwner, newOwner, Movers(t, oldOwner, newOwner, index))
    requires Shifted(there, back, newOwner, oldOwner, Movers(there, newOwner, oldOwner, index))
    ensures back == t
  {
    EmptyOwnerIsRenamed(t, there, oldOwner, newOwner, index);
    EmptyOwnerIsRenamed(there, back, newOwner, oldOwner, index);
    RenamedBack(t, there, back, oldOwner, newOwner);
  }

  lemma RenamedBack<K(!new), V>(t: map<Owned<K>, V>, there: map<Owned<K>, V>, back: map<Owned<K>, V>,
                                oldOwner: string, newOwner: string)
    requires oldOwner != newOwner
    requires Renamed(t, there, oldOwner, newOwner) && Renamed(there, back, newOwner, oldOwner)
    ensures back == t
  {
    hide Renamed;
    forall k: Owned<K> ensures k in back <==> k in t {
      RenamedKey(t, there, back, oldOwner, newOwner, k);
    }
    forall k | k in back ensures back[k] == t[k] {
      RenamedKey(t, there, back, oldOwner, newOwner, k);
    }
  }

  lemma RenamedKey<K(!new), V>(t: map<Owned<K>, V>, there: map<Owned<K>, V>, back: map<Owned<K>, V>,
                               oldOwner: string, newOwner: string, k: Owned<K>)
    requires oldOwner != newOwner
    requires Renamed(t, there, oldOwner, newOwner) && Renamed(there, back, newOwner, oldOwner)
    ensures k in back <==> k in t
    ensures k in back ==> back[k] == t[k]
  {
    var m := Source(k, newOwner, oldOwner);
    assert k in back <==> k.owner != newOwner && m in there;
    assert m in there <==> m.owner != oldOwner && Source(m, oldOwner, newOwner) in t;
    assert k.owner != newOwner ==> m.owner != oldOwner && Source(m, oldOwner, newOwner) == k;
  }

  // ---- The contact invariant across a rebind ----

  function NoIndex<K, V>(id: K, row: V): Option<()> {
    None
  }

  // idx_contact_handle_bindings_owner_handle_current_unique
  function CurrentHandle(id: HandleDID, row: Binding): Option<string> {
    if row.current then Some(id.handle) else None
  }

  lemma IndexIsOneCurrent(bindings: map<Owned<HandleDID>, Binding>)
    ensures IndexUnique(bindings, CurrentHandle) <==> OneCurrent(bindings)
  {
    if OneCurrent(bindings) {
      forall k, l | k in bindings && l in bindings && k.owner == l.owner && CurrentHandle(k.id, bindings[k]).Some?
        && CurrentHandle(k.id, bindings[k]) == CurrentHandle(l.id, bindings[l])
        ensures k == l
      {
        assert IsCurrent(bindings, k.owner, k.id.handle, k.id.did);
        assert IsCurrent(bindings, k.owner, k.id.handle, l.id.did);
      }
    }
    if IndexUnique(bindings, CurrentHandle) {
      forall o, h, d, e | IsCurrent(bindings, o, h, d) && IsCurrent(bindings, o, h, e) ensures d == e {
        var k, l := BindingKey(o, h, d), BindingKey(o, h, e);
        assert CurrentHandle(k.id, bindings[k]) == CurrentHandle(l.id, bindings[l]) == Some(h);
      }
    }
  }

  ghost predicate HasCurrent(bindings: map<Owned<HandleDID>, Binding>, o: string, h: string) {
    exists d :: IsCurrent(bindings, o, h, d)
  }

  ghost predicate ReboundStore(s: State, t: State, oldOwner: string, newOwner: string) {
    && Shifted(s.contacts, t.contacts, oldOwner, newOwner,
      Movers(s.contacts, oldOwner, newOwner, NoIndex<string, Contact>))
    && Shifted(s.bindings, t.bindings, oldOwner, newOwner, Movers(s.bindings, oldOwner, newOwner, CurrentHandle))
  }

  lemma CurrentAfterRebind(s: State, t: State, oldOwner: string, newOwner: string, o: string, h: string, d: string)
    requires oldOwner != newOwner && SomeCurrent(s.bindings) && ReboundStore(s, t, oldOwner, newOwner)
    ensures IsCurrent(t.bindings, o, h, d) <==>
      if o == oldOwner then IsCurrent(s.bindings, oldOwner, h, d) && HasCurrent(s.bindings, newOwner, h)
      else if o == newOwner then
        IsCurrent(s.bindings, newOwner, h, d)
          || (IsCurrent(s.bindings, oldOwner, h, d) && !HasCurrent(s.bindings, newOwner, h))
      else IsCurrent(s.bindings, o, h, d)
  {
    var from, to := BindingKey(oldOwner, h, d), BindingKey(newOwner, h, d);
    var k := BindingKey(o, h, d);
    assert from.id == to.id == k.id == HandleDID(h, d);
    if IsCurrent(s.bindings, oldOwner, h, d) {
      CurrentRowMoves(s.bindings, oldOwner, newOwner, h, d);
    }
    assert Moves(s.bindings, oldOwner, newOwner, from.id, CurrentHandle)
      <==> from.id in Movers(s.bindings, oldOwner, newOwner, CurrentHandle);
  }

  lemma BindingClash(bindings: map<Owned<HandleDID>, Binding>, owner: string, id: HandleDID, row: Binding)
    ensures Clash(bindings, owner, id, row, CurrentHandle) <==>
      Owned(owner, id) in bindings || (row.current && HasCurrent(bindings, owner, id.handle))
  {
    if e :| row.current && IsCurrent(bindings, owner, id.handle, e) {
      var k := BindingKey(owner, id.handle, e);
      assert k in bindings && CurrentHandle(k.id, bindings[k]) == CurrentHandle(id, row);
    }
    if k :|
      k in bindings && k.owner == owner && row.current && CurrentHandle(k.id, bindings[k]) == CurrentHandle(id, row)
    {
      assert IsCurrent(bindings, owner, id.handle, k.id.did);
    }
  }

  // A current binding moves exactly when the new owner has no current binding for the handle.
  lemma CurrentRowMoves(bindings: map<Owned<HandleDID>, Binding>, oldOwner: string, newOwner: string, h: string,
                        d: string)
    requires SomeCurrent(bindings) && IsCurrent(bindings, oldOwner, h, d)
    ensures Moves(bindings, oldOwner, newOwner, HandleDID(h, d), CurrentHandle) <==> !HasCurrent(bindings, newOwner, h)
  {
    var k := BindingKey(newOwner, h, d);
    BindingClash(bindings, newOwner, k.id, bindings[BindingKey(oldOwner, h, d)]);
    assert Bound(bindings, k) ==> HasCurrent(bindings, k.owner, k.id.handle);
  }

  // Can be checked before the call: a contact that would move meets no other current DID for its
  // handle, and a contact that would stay keeps its binding from moving away.
  ghost predicate Compatible(s: State, oldOwner: string, newOwner: string) {
    forall h, d | Holds(s.contacts, oldOwner, h, d) :: CompatibleContact(s, newOwner, h, d)
  }

  ghost predicate CompatibleContact(s: State, newOwner: string, h: string, d: string) {
    if ContactKey(newOwner, d) in s.contacts then HasCurrent(s.bindings, newOwner, h)
    else forall e | IsCurrent(s.bindings, newOwner, h, e) :: e == d
  }

  // One current binding per handle survives every rebind; a contact's handle stays backed by its
  // binding exactly when the two owners are compatible.
  lemma RebindKeepsInv(s: State, t: State, oldOwner: string, newOwner: string)
    requires oldOwner != newOwner && Inv(s) && ReboundStore(s, t, oldOwner, newOwner)
    ensures OneCurrent(t.bindings) && SomeCurrent(t.bindings)
    ensures Inv(t) <==> Compatible(s, oldOwner, newOwner)
  {
    OneCurrentRebound(s, t, oldOwner, newOwner);
    SomeCurrentRebound(s, t, oldOwner, newOwner);
    if Compatible(s, oldOwner, newOwner) {
      forall o, h, d | Holds(t.contacts, o, h, d) ensures IsCurrent(t.bindings, o, h, d) {
        BackedIfCompatible(s, t, oldOwner, newOwner, o, h, d);
      }
      UniqueFromBacked(t);
    } else {
      var h, d :| Holds(s.contacts, oldOwner, h, d) && !CompatibleContact(s, newOwner, h, d);
      UnbackedIfIncompatible(s, t, oldOwner, newOwner, h, d);
    }
  }

  lemma OneCurrentRebound(s: State, t: State, oldOwner: string, newOwner: string)
    requires oldOwner != newOwner && OneCurrent(s.bindings) && SomeCurrent(s.bindings)
      && ReboundStore(s, t, oldOwner, newOwner)
    ensures OneCurrent(t.bindings)
  {
    forall o, h, d, e | IsCurrent(t.bindings, o, h, d) && IsCurrent(t.bindings, o, h, e) ensures d == e {
      CurrentAfterRebind(s, t, oldOwner, newOwner, o, h, d);
      CurrentAfterRebind(s, t, oldOwner, newOwner, o, h, e);
    }
  }

  lemma UniqueFromBacked(s: State)
    requires HandlesBacked(s) && OneCurrent(s.bindings)
    ensures HandlesUnique(s.contacts)
  {
  }

  lemma ContactMoves(contacts: map<Owned<string>, Contact>, oldOwner: string, newOwner: string, d: string)
    ensures d in Movers(contacts, oldOwner, newOwner, NoIndex<string, Contact>) <==>
      ContactKey(oldOwner, d) in contacts && ContactKey(newOwner, d) !in contacts
  {
    assert Moves(contacts, oldOwner, newOwner, d, NoIndex<string, Contact>) <==>
      ContactKey(oldOwner, d) in contacts && ContactKey(newOwner, d) !in contacts;
    assert ContactKey(oldOwner, d).id == d;
  }

  lemma BackedIfCompatible(s: State, t: State, oldOwner: string, newOwner: string, o: string, h: string, d: string)
    requires oldOwner != newOwner && Inv(s) && ReboundStore(s, t, oldOwner, newOwner)
    requires Compatible(s, oldOwner, newOwner) && Holds(t.contacts, o, h, d)
    ensures IsCurrent(t.bindings, o, h, d)
  {
    ContactMoves(s.contacts, oldOwner, newOwner, d);
    CurrentAfterRebind(s, t, oldOwner, newOwner, o, h, d);
    if Holds(s.contacts, o, h, d) {
      assert IsCurrent(s.bindings, o, h, d);
    } else {
      assert Holds(s.contacts, oldOwner, h, d);
      assert IsCurrent(s.bindings, oldOwner, h, d);
    }
  }

  lemma UnbackedIfIncompatible(s: State, t: State, oldOwner: string, newOwner: string, h: string, d: string)
    requires oldOwner != newOwner && Inv(s) && ReboundStore(s, t, oldOwner, newOwner)
    requires Holds(s.contacts, oldOwner, h, d) && !CompatibleContact(s, newOwner, h, d)
    ensures !HandlesBacked(t)
  {
    ContactMoves(s.contacts, oldOwner, newOwner, d);
    var o := if ContactKey(newOwner, d) in s.contacts then oldOwner else newOwner;
    CurrentAfterRebind(s, t, oldOwner, newOwner, o, h, d);
    assert Holds(t.contacts, o, h, d);
  }

  lemma SomeCurrentRebound(s: State, t: State, oldOwner: string, newOwner: string)
    requires oldOwner != newOwner && SomeCurrent(s.bindings) && ReboundStore(s, t, oldOwner, newOwner)
    ensures SomeCurrent(t.bindings)
  {
    forall k | Bound(t.bindings, k) ensures exists d :: IsCurrent(t.bindings, k.owner, k.id.handle, d) {
      var d := CurrentRowAfter(s, t, oldOwner, newOwner, k);
    }
  }

  lemma CurrentRowAfter(s: State, t: State, oldOwner: string, newOwner: string, k: Owned<HandleDID>) returns (d: string)
    requires oldOwner != newOwner && SomeCurrent(s.bindings) && ReboundStore(s, t, oldOwner, newOwner)
    requires Bound(t.bindings, k)
    ensures IsCurrent(t.bindings, k.owner, k.id.handle, d)
  {
    var h := k.id.handle;
    if Bound(s.bindings, k) {
      d :| IsCurrent(s.bindings, k.owner, h, d);
      CurrentAfterRebind(s, t, oldOwner, newOwner, k.owner, h, d);
      if k.owner == oldOwner && !HasCurrent(s.bindings, newOwner, h) {
        AllRowsMove(s.bindings, oldOwner, newOwner, k.id);
      }
    } else {
      assert k == Owned(newOwner, k.id) && Bound(s.bindings, Owned(oldOwner, k.id));
      if e :| IsCurrent(s.bindings, newOwner, h, e) {
        d := e;
      } else {
        d :| IsCurrent(s.bindings, oldOwner, h, d);
      }
      CurrentAfterRebind(s, t, oldOwner, newOwner, newOwner, h, d);
    }
  }

  lemma AllRowsMove(bindings: map<Owned<HandleDID>, Binding>, oldOwner: string, newOwner: string, id: HandleDID)
    requires SomeCurrent(bindings) && Bound(bindings, Owned(oldOwner, id)) && !HasCurrent(bindings, newOwner, id.handle)
    ensures id in Movers(bindings, oldOwner, newOwner, CurrentHandle)
  {
    BindingClash(bindings, newOwner, id, bindings[Owned(oldOwner, id)]);
    var k := Owned(newOwner, id);
    assert Bound(bindings, k) ==> HasCurrent(bindings, k.owner, k.id.handle);
    assert Moves(bindings, oldOwner, newOwner, id, CurrentHandle);
    assert Owned(oldOwner, id).id == id;
  }

  // With an owner that has no rows yet the invariant always carries over.
  lemma RebindToEmptyOwnerKeepsInv(s: State, t: State, oldOwner: string, newOwner: string)
    requires oldOwner != newOwner && Inv(s) && ReboundStore(s, t, oldOwner, newOwner)
    requires forall k | k in s.contacts :: k.owner != newOwner
    requires forall k | k in s.bindings :: k.owner != newOwner
    ensures Inv(t)
  {
    RebindKeepsInv(s, t, oldOwner, newOwner);
    forall h, d | Holds(s.contacts, oldOwner, h, d)
      ensures ContactKey(newOwner, d) !in s.contacts && forall e :: !IsCurrent(s.bindings, newOwner, h, e)
    {
      assert ContactKey(newOwner, d).owner == newOwner;
      forall e ensures !IsCurrent(s.bindings, newOwner, h, e) {
        assert BindingKey(newOwner, h, e).owner == newOwner;
      }
    }
  }
}
