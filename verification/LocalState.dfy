// RebindLocalIdentityState: the owner-keyed tables of the local database, rebound in one
// transaction, followed by the removal of the old owner's end-to-end state.
module LocalState {
  import opened Wrappers
  import opened Text
  import opened ContactStore
  import opened Rebind

  // The columns a rebind does not look at.
  datatype Row = Row(columns: map<string, string>)
  // A row of a table whose primary key does not contain the owner.
  datatype OwnedRow = OwnedRow(owner: string, row: Row)
  datatype MemberKey = MemberKey(group: string, user: string)
  datatype Cleared = Cleared(outbox: nat, sessions: nat)
  datatype Counts = Counts(messages: nat, contacts: nat, bindings: nat, events: nat, groups: nat, members: nat)

  // UPDATE OR IGNORE relationship_events: the key does not change, so no row is ever blocked.
  function Reown(t: map<string, OwnedRow>, oldOwner: string, newOwner: string): map<string, OwnedRow> {
    map id | id in t :: if t[id].owner == oldOwner then t[id].(owner := newOwner) else t[id]
  }

  function Without(t: map<string, OwnedRow>, owner: string): map<string, OwnedRow> {
    map id | id in t && t[id].owner != owner :: t[id]
  }

  function WithoutOwner<K(==), V>(t: map<Owned<K>, V>, owner: string): map<Owned<K>, V> {
    map k | k in t && k.owner != owner :: t[k]
  }

  function IdsOf<K(==), V>(t: map<Owned<K>, V>, owner: string): set<K> {
    set k | k in t && k.owner == owner :: k.id
  }

  // SELECT COUNT(*) FROM t WHERE owner_did = owner
  function RowCount<K(==), V>(t: map<Owned<K>, V>, owner: string): nat {
    |set k | k in t && k.owner == owner|
  }

  function EventCount(t: map<string, OwnedRow>, owner: string): nat {
    |set id | id in t && t[id].owner == owner|
  }

  ghost predicate ReboundTable<K(!new), V>(t: map<Owned<K>, V>, after: map<Owned<K>, V>, oldOwner: string,
                                           newOwner: string)
  {
    Shifted(t, after, oldOwner, newOwner, Movers(t, oldOwner, newOwner, NoIndex<K, V>))
  }

  lemma StoreIsRebound(s: State, t: State, oldOwner: string, newOwner: string)
    requires ReboundTable(s.contacts, t.contacts, oldOwner, newOwner)
    requires Shifted(s.bindings, t.bindings, oldOwner, newOwner, Movers(s.bindings, oldOwner, newOwner, CurrentHandle))
    ensures ReboundStore(s, t, oldOwner, newOwner)
  {
    hide Shifted, Movers;
  }

  method Enumerate<K(==)>(ids: set<K>) returns (order: seq<K>)
    ensures forall id :: id in order <==> id in ids
    ensures forall i, j | 0 <= i < j < |order| :: order[i] != order[j]
  {
    order := [];
    var rest := ids;
    while rest != {}
      invariant rest <= ids
      invariant forall id :: id in order <==> id in ids && id !in rest
      invariant forall i, j | 0 <= i < j < |order| :: order[i] != order[j]
      decreases rest
    {
      var id :| id in rest;
      order, rest := order + [id], rest - {id};
    }
  }

  method RebindTable<K(==, !new), V, I(==)>(t: map<Owned<K>, V>, oldOwner: string, newOwner: string,
                                            index: (K, V) -> Option<I>)
    returns (after: map<Owned<K>, V>)
    requires oldOwner != newOwner && IndexUnique(t, index)
    ensures Shifted(t, after, oldOwner, newOwner, Movers(t, oldOwner, newOwner, index))
  {
    var order := Enumerate(IdsOf(t, oldOwner));
    forall id ensures id in order <==> Owned(oldOwner, id) in t {
      assert Owned(oldOwner, id).id == id;
    }
    after := UpdateOrIgnore(t, oldOwner, newOwner, index, order);
  }

  // A table with no unique index beside its key.
  method RebindPlain<K(==, !new), V>(t: map<Owned<K>, V>, oldOwner: string, newOwner: string)
    returns (after: map<Owned<K>, V>)
    requires oldOwner != newOwner
    ensures ReboundTable(t, after, oldOwner, newOwner)
  {
    hide Shifted, Movers;
    after := RebindTable(t, oldOwner, newOwner, NoIndex<K, V>);
  }

  // The calls that change nothing: a blank owner, or the same owner twice.
  predicate SameOwner(oldOwnerDID: string, newOwnerDID: string) {
    TrimSpace(oldOwnerDID) == "" || TrimSpace(newOwnerDID) == "" || TrimSpace(oldOwnerDID) == TrimSpace(newOwnerDID)
  }

  class Database {
    var messages: map<Owned<string>, Row>
    var contacts: map<Owned<string>, Contact>
    var bindings: map<Owned<HandleDID>, Binding>
    var events: map<string, OwnedRow>
    var groups: map<Owned<string>, Row>
    var members: map<Owned<MemberKey>, Row>
    var outbox: map<string, OwnedRow>
    var sessions: map<Owned<string>, Row>

    // The unique index the database enforces on every write.
    ghost predicate Valid()
      reads this
    {
      OneCurrent(bindings)
    }

    constructor ()
      ensures Valid() && messages == map[] && contacts == map[] && bindings == map[] && events == map[]
      ensures groups == map[] && members == map[] && outbox == map[] && sessions == map[]
    {
      messages, contacts, bindings, events := map[], map[], map[], map[];
      groups, members, outbox, sessions := map[], map[], map[], map[];
    }

    twostate predicate TablesUnchanged()
      reads this
    {
      && messages == old(messages) && contacts == old(contacts) && bindings == old(bindings)
      && events == old(events) && groups == old(groups) && members == old(members)
    }

    // One count a table: the rows the owner had before.
    twostate predicate CountsRows(counts: Counts, owner: string)
      reads this
    {
      && counts.messages == RowCount(old(messages), owner)
      && counts.contacts == RowCount(old(contacts), owner)
      && counts.bindings == RowCount(old(bindings), owner)
      && counts.events == EventCount(old(events), owner)
      && counts.groups == RowCount(old(groups), owner)
      && counts.members == RowCount(old(members), owner)
    }

    // The outbox rows of the owner are gone, and no other is touched.
    twostate predicate OutboxCleared(owner: string)
      reads this
    {
      && (forall id :: id in outbox <==> id in old(outbox) && old(outbox)[id].owner != owner)
      && (forall id | id in outbox :: outbox[id] == old(outbox)[id])
    }

    twostate predicate SessionsCleared(owner: string)
      reads this
    {
      && (forall k :: k in sessions <==> k in old(sessions) && k.owner != owner)
      && (forall k | k in sessions :: sessions[k] == old(sessions)[k])
    }

    twostate predicate ClearedRows(cleared: Cleared, owner: string)
      reads this
    {
      && cleared.outbox == EventCount(old(outbox), owner)
      && cleared.sessions == RowCount(old(sessions), owner)
    }

    // Every row of the old owner has moved, or stays because the new owner has its key already.
    twostate predicate TablesRebound(oldOwner: string, newOwner: string)
      reads this
    {
      && ReboundTable(old(messages), messages, oldOwner, newOwner)
      && ReboundStore(State(old(contacts), old(bindings)), State(contacts, bindings), oldOwner, newOwner)
      && events == Reown(old(events), oldOwner, newOwner)
      && ReboundTable(old(groups), groups, oldOwner, newOwner)
      && ReboundTable(old(members), members, oldOwner, newOwner)
    }

    // failed is a database error at any statement: the transaction rolls back.
    method RebindOwnerDID(oldOwnerDID: string, newOwnerDID: string, failed: bool) returns (ok: bool, counts: Counts)
      requires Valid()
      modifies this`messages, this`contacts, this`bindings, this`events, this`groups, this`members
      ensures ok == (SameOwner(oldOwnerDID, newOwnerDID) || !failed)
      ensures SameOwner(oldOwnerDID, newOwnerDID) || failed ==> TablesUnchanged() && counts == Counts(0, 0, 0, 0, 0, 0)
      ensures !SameOwner(oldOwnerDID, newOwnerDID) && !failed ==>
        var o := TrimSpace(oldOwnerDID);
        && TablesRebound(o, TrimSpace(newOwnerDID))
        && CountsRows(counts, o)
    {
      hide EventCount, RowCount, TablesRebound;
      var o, n := TrimSpace(oldOwnerDID), TrimSpace(newOwnerDID);
      counts := Counts(0, 0, 0, 0, 0, 0);
      if o == "" || n == "" || o == n {
        return true, counts;
      }
      if failed {
        return false, counts;
      }
      counts := Counts(RowCount(messages, o), RowCount(contacts, o), RowCount(bindings, o), EventCount(events, o),
        RowCount(groups, o), RowCount(members, o));
      RebindTables(o, n);
      ok := true;
    }

    method RebindTables(o: string, n: string)
      requires Valid() && o != n
      modifies this`messages, this`contacts, this`bindings, this`events, this`groups, this`members
      ensures TablesRebound(o, n)
    {
      hide Shifted, Movers, Reown, OneCurrent, IndexUnique, ReboundTable, ReboundStore;
      IndexIsOneCurrent(bindings);
      ghost var before := State(contacts, bindings);
      messages := RebindPlain(messages, o, n);
      contacts := RebindPlain(contacts, o, n);
      bindings := RebindTable(bindings, o, n, CurrentHandle);
      StoreIsRebound(before, State(contacts, bindings), o, n);
      events := Reown(events, o, n);
      groups := RebindPlain(groups, o, n);
      members := RebindPlain(members, o, n);
    }

    // failAt is the table whose statements fail, if any; the two deletes are not one transaction. The
    // counts are those of the rows found before each delete.
    method ClearOwnerE2EEData(ownerDID: string, failAt: Option<nat>) returns (ok: bool, cleared: Cleared)
      modifies this`outbox, this`sessions
      ensures var o := TrimSpace(ownerDID);
        && ok == (o == "" || Deletes(failAt))
        && (if o == "" || failAt == Some(0) then outbox == old(outbox) else OutboxCleared(o))
        && (if o == "" || !ok then sessions == old(sessions) else SessionsCleared(o))
        && (if o == "" || !ok then cleared == Cleared(0, 0) else ClearedRows(cleared, o))
    {
      hide EventCount, RowCount;
      var o := TrimSpace(ownerDID);
      ok, cleared := true, Cleared(0, 0);
      if o == "" {
        return;
      }
      if failAt == Some(0) {
        return false, cleared;
      }
      var outboxRows := EventCount(outbox, o);
      outbox := Without(outbox, o);
      if failAt == Some(1) {
        return false, cleared;
      }
      cleared := Cleared(outboxRows, RowCount(sessions, o));
      sessions := WithoutOwner(sessions, o);
    }

    // The owner has an event, an outbox row and a session.
    ghost predicate OwnsRows(owner: string)
      reads this
    {
      && (exists id | id in events :: events[id].owner == owner)
      && (exists id | id in outbox :: outbox[id].owner == owner)
      && (exists k | k in sessions :: k.owner == owner)
    }

    ghost predicate E2EEGone(owner: string)
      reads this
    {
      (forall id | id in outbox :: outbox[id].owner != owner) && (forall k | k in sessions :: k.owner != owner)
    }

    // present and opens: whether there is a database file, and whether it can be opened. Without a file
    // there is nothing to do. The rebind is one transaction; the end-to-end state goes afterwards, and it
    // also goes when the rebind had nothing to do because the new owner is blank or the old one again.
    method RebindLocalIdentityState(oldOwnerDID: string, newOwnerDID: string, present: bool, opens: bool,
                                    rebindFails: bool, clearFailsAt: Option<nat>)
      returns (ok: bool, counts: Counts, cleared: Cleared)
      requires Valid()
      modifies this
      ensures var o, n := TrimSpace(oldOwnerDID), TrimSpace(newOwnerDID);
        var same := SameOwner(oldOwnerDID, newOwnerDID);
        var rebound := present && opens && (same || !rebindFails);
        && ok == (!present || (rebound && (o == "" || Deletes(clearFailsAt))))
        && (rebound && !same ==> TablesRebound(o, n) && CountsRows(counts, o))
        && (!rebound || same ==> TablesUnchanged() && counts == Counts(0, 0, 0, 0, 0, 0))
        && (if rebound && o != "" && clearFailsAt != Some(0) then OutboxCleared(o) else outbox == old(outbox))
        && (if rebound && o != "" && Deletes(clearFailsAt) then SessionsCleared(o) && ClearedRows(cleared, o)
            else sessions == old(sessions) && cleared == Cleared(0, 0))
      ensures var o, n := TrimSpace(oldOwnerDID), TrimSpace(newOwnerDID);
        old(OwnsRows(o)) ==>
          (TablesUnchanged() && E2EEGone(o)
           <==> present && opens && o != "" && (n == "" || n == o) && Deletes(clearFailsAt))
    {
      counts, cleared := Counts(0, 0, 0, 0, 0, 0), Cleared(0, 0);
      if !present {
        return true, counts, cleared;
      }
      if !opens {
        return false, counts, cleared;
      }
      ok, counts := RebindOwnerDID(oldOwnerDID, newOwnerDID, rebindFails);
      if !ok {
        return;
      }
      ok, cleared := ClearOwnerE2EEData(oldOwnerDID, clearFailsAt);
    }
  }

  predicate Deletes(failAt: Option<nat>) {
    failAt != Some(0) && failAt != Some(1)
  }

  // The counts are numbers of rows: the length of any list that has every row of the owner once.
  lemma RowCountIsLength<K(!new), V>(t: map<Owned<K>, V>, owner: string, rows: seq<Owned<K>>)
    requires forall k :: k in rows <==> k in t && k.owner == owner
    requires forall i, j | 0 <= i < j < |rows| :: rows[i] != rows[j]
    ensures RowCount(t, owner) == |rows|
  {
    assert (set k | k in t && k.owner == owner) == (set k | k in rows);
    LengthOfSet(rows);
  }

  lemma EventCountIsLength(t: map<string, OwnedRow>, owner: string, rows: seq<string>)
    requires forall id :: id in rows <==> id in t && t[id].owner == owner
    requires forall i, j | 0 <= i < j < |rows| :: rows[i] != rows[j]
    ensures EventCount(t, owner) == |rows|
  {
    assert (set id | id in t && t[id].owner == owner) == (set id | id in rows);
    LengthOfSet(rows);
  }

  lemma {:induction false} LengthOfSet<T>(rows: seq<T>)
    requires forall i, j | 0 <= i < j < |rows| :: rows[i] != rows[j]
    ensures |set x | x in rows| == |rows|
  {
    if rows != [] {
      var last, before := rows[|rows| - 1], rows[..|rows| - 1];
      LengthOfSet(before);
      assert last !in before;
      assert (set x | x in rows) == (set x | x in before) + {last};
    }
  }

  // Each table keeps its row count. A row of the old owner that the new owner has no room for, because
  // its key or its entry in the table's second unique index is taken, is still there and unchanged; any
  // other has moved; no other row is touched.
  lemma NoRowIsLost<K(!new), V, I>(t: map<Owned<K>, V>, after: map<Owned<K>, V>, oldOwner: string, newOwner: string,
                                   index: (K, V) -> Option<I>)
    requires oldOwner != newOwner && Shifted(t, after, oldOwner, newOwner, Movers(t, oldOwner, newOwner, index))
    ensures |after| == |t|
    ensures forall k | k in t && k.owner != oldOwner :: k in after && after[k] == t[k]
    ensures forall id | Owned(oldOwner, id) in t ::
      if Clash(t, newOwner, id, t[Owned(oldOwner, id)], index)
      then Owned(oldOwner, id) in after && after[Owned(oldOwner, id)] == t[Owned(oldOwner, id)]
      else Owned(oldOwner, id) !in after && Owned(newOwner, id) in after
           && after[Owned(newOwner, id)] == t[Owned(oldOwner, id)]
  {
    forall id | Owned(oldOwner, id) in t
      ensures id in Movers(t, oldOwner, newOwner, index) <==> !Clash(t, newOwner, id, t[Owned(oldOwner, id)], index)
    {
      assert Owned(oldOwner, id).id == id;
    }
    forall k | k in t && k.owner != oldOwner ensures k in after && after[k] == t[k] {
      assert k.owner == newOwner ==> k == Owned(newOwner, k.id);
    }
  }

  // In the tables without a second index a row stays exactly when its key is taken.
  lemma NoPlainRowIsLost<K(!new), V>(t: map<Owned<K>, V>, after: map<Owned<K>, V>, oldOwner: string, newOwner: string)
    requires oldOwner != newOwner && ReboundTable(t, after, oldOwner, newOwner)
    ensures |after| == |t|
    ensures forall k | k in t && k.owner != oldOwner :: k in after && after[k] == t[k]
    ensures forall id | Owned(oldOwner, id) in t ::
      if Owned(newOwner, id) in t then Owned(oldOwner, id) in after
        && after[Owned(oldOwner, id)] == t[Owned(oldOwner, id)]
      else Owned(oldOwner, id) !in after && Owned(newOwner, id) in after
           && after[Owned(newOwner, id)] == t[Owned(oldOwner, id)]
  {
    hide Shifted, Movers;
    NoRowIsLost(t, after, oldOwner, newOwner, NoIndex<K, V>);
  }

  // A binding stays exactly when the new owner has a binding with its key or, for a current one, a
  // current binding for its handle.
  lemma NoBindingIsLost(t: map<Owned<HandleDID>, Binding>, after: map<Owned<HandleDID>, Binding>,
                        oldOwner: string, newOwner: string)
    requires oldOwner != newOwner && Shifted(t, after, oldOwner, newOwner, Movers(t, oldOwner, newOwner, CurrentHandle))
    ensures |after| == |t|
    ensures forall k | k in t && k.owner != oldOwner :: k in after && after[k] == t[k]
    ensures forall id | Owned(oldOwner, id) in t ::
      var row := t[Owned(oldOwner, id)];
      if Owned(newOwner, id) in t || (row.current && HasCurrent(t, newOwner, id.handle))
      then Owned(oldOwner, id) in after && after[Owned(oldOwner, id)] == row
      else Owned(oldOwner, id) !in after && Owned(newOwner, id) in after && after[Owned(newOwner, id)] == row
  {
    hide Shifted, Movers, Clash, HasCurrent;
    NoRowIsLost(t, after, oldOwner, newOwner, CurrentHandle);
    forall id | Owned(oldOwner, id) in t
      ensures Clash(t, newOwner, id, t[Owned(oldOwner, id)], CurrentHandle)
        <==> Owned(newOwner, id) in t || (t[Owned(oldOwner, id)].current && HasCurrent(t, newOwner, id.handle))
    {
      BindingClash(t, newOwner, id, t[Owned(oldOwner, id)]);
    }
  }

  // Relationship events are keyed by their own id: every one of the old owner's changes owner, all
  // others stay as they are, and going back undoes it when the new owner had none.
  lemma NoEventIsLost(t: map<string, OwnedRow>, oldOwner: string, newOwner: string)
    requires oldOwner != newOwner
    ensures var after := Reown(t, oldOwner, newOwner);
      && after.Keys == t.Keys && |after| == |t|
      && (forall id | id in t :: after[id].row == t[id].row
            && after[id].owner == if t[id].owner == oldOwner then newOwner else t[id].owner)
      && EventCount(after, oldOwner) == 0
      && EventCount(after, newOwner) == EventCount(t, newOwner) + EventCount(t, oldOwner)
      && (Reown(after, newOwner, oldOwner) == t <==> EventCount(t, newOwner) == 0)
  {
    hide EventCount;
    var after := Reown(t, oldOwner, newOwner);
    assert after.Keys == t.Keys;
    assert |after.Keys| == |t.Keys|;
    ReownedCounts(t, oldOwner, newOwner);
    ReownedBack(t, oldOwner, newOwner);
  }

  lemma ReownedCounts(t: map<string, OwnedRow>, oldOwner: string, newOwner: string)
    requires oldOwner != newOwner
    ensures var after := Reown(t, oldOwner, newOwner);
      && EventCount(after, oldOwner) == 0
      && EventCount(after, newOwner) == EventCount(t, newOwner) + EventCount(t, oldOwner)
  {
    var after := Reown(t, oldOwner, newOwner);
    var olds, news := (set id | id in t && t[id].owner == oldOwner), (set id | id in t && t[id].owner == newOwner);
    assert (set id | id in after && after[id].owner == oldOwner) == {};
    assert (set id | id in after && after[id].owner == newOwner) == news + olds;
    assert news !! olds;
  }

  lemma ReownedBack(t: map<string, OwnedRow>, oldOwner: string, newOwner: string)
    requires oldOwner != newOwner
    ensures Reown(Reown(t, oldOwner, newOwner), newOwner, oldOwner) == t <==> EventCount(t, newOwner) == 0
  {
    var back := Reown(Reown(t, oldOwner, newOwner), newOwner, oldOwner);
    var news := set id | id in t && t[id].owner == newOwner;
    if news == {} {
      forall id | id in t ensures back[id] == t[id] {
        assert id !in news;
      }
      assert back == t;
    } else {
      var id :| id in news;
      assert back[id].owner == oldOwner;
    }
  }
}
