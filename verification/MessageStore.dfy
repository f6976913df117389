// internal/store/dao.go: StoreMessage, StoreMessagesBatch and the merging upsert they share.
module MessageStore {
  import opened Wrappers
  import opened Text

  datatype Record = Record(
    msgID: string, ownerDID: string, threadID: string, direction: int, senderDID: string, receiverDID: string,
    groupID: string, groupDID: string, contentType: string, content: string, title: string, serverSeq: Option<int>,
    sentAt: string, storedAt: string, isE2EE: bool, isRead: bool, senderName: string, metadata: string,
    credentialName: string)

  // The columns that always take the newest value.
  datatype Envelope = Envelope(
    threadID: string, direction: int, senderDID: Option<string>, receiverDID: Option<string>,
    groupID: Option<string>, groupDID: Option<string>, title: Option<string>, credentialName: string)

  datatype Row = Row(
    envelope: Envelope, contentType: string, content: string, serverSeq: Option<int>, sentAt: Option<string>,
    storedAt: string, isE2EE: bool, isRead: bool, senderName: Option<string>, metadata: Option<string>)

  // Primary key (msg_id, owner_did).
  datatype Key = Key(msgID: string, owner: string)

  function KeyOf(r: Record): Key {
    Key(r.msgID, TrimSpace(r.ownerDID))
  }

  // messageRecordArgs
  function RowOf(r: Record, now: string): Row {
    Row(
      Envelope(
        r.threadID, r.direction, Optional(r.senderDID), Optional(r.receiverDID), Optional(r.groupID),
        Optional(r.groupDID), Optional(r.title), TrimSpace(r.credentialName)),
      DefaultString(r.contentType, "text"), r.content, r.serverSeq, Optional(r.sentAt),
      DefaultString(r.storedAt, now), r.isE2EE, r.isRead, Optional(r.senderName), Optional(r.metadata))
  }

  predicate IsWireType(contentType: string) {
    contentType == "application/anp-direct-init+json" || contentType == "application/anp-direct-cipher+json"
  }

  predicate Wire(row: Row) {
    IsWireType(row.contentType)
  }

  // ON CONFLICT(msg_id, owner_did) DO UPDATE SET ...; credential_name is never NULL in a record.
  function Merge(messages: Row, excluded: Row): Row {
    var keep := Wire(excluded) && !Wire(messages);
    Row(
      excluded.envelope,
      if keep then messages.contentType else excluded.contentType,
      if keep then messages.content else excluded.content,
      excluded.serverSeq.OrElse(messages.serverSeq),
      excluded.sentAt.OrElse(messages.sentAt),
      messages.storedAt,
      excluded.isE2EE || messages.isE2EE,
      excluded.isRead || messages.isRead,
      excluded.senderName.OrElse(messages.senderName),
      if keep then messages.metadata else excluded.metadata.OrElse(messages.metadata))
  }

  datatype Write = Write(key: Key, row: Row)

  function Upsert(table: map<Key, Row>, w: Write): map<Key, Row> {
    table[w.key := if w.key in table then Merge(table[w.key], w.row) else w.row]
  }

  function Replay(table: map<Key, Row>, log: seq<Write>): map<Key, Row> {
    if log == [] then table else Upsert(Replay(table, log[..|log| - 1]), log[|log| - 1])
  }

  function WriteOf(r: Record, now: string): Write {
    Write(KeyOf(r), RowOf(r, now))
  }

  function Writes(batch: seq<Record>, now: string): (ws: seq<Write>)
    ensures |ws| == |batch|
  {
    seq(|batch|, i requires 0 <= i < |batch| => WriteOf(batch[i], now))
  }

  predicate CanStore(r: Record) {
    !Blank(r.msgID) && !Blank(r.threadID)
  }

  function StoreOne(table: map<Key, Row>, r: Record, now: string, failed: bool): map<Key, Row> {
    if CanStore(r) && !failed then Upsert(table, WriteOf(r, now)) else table
  }

  class MessageTable {
    var rows: map<Key, Row>

    constructor ()
      ensures rows == map[]
    {
      rows := map[];
    }

    // failed is a database error.
    method StoreMessage(r: Record, now: string, failed: bool) returns (ok: bool)
      modifies this
      ensures ok == (CanStore(r) && !failed)
      ensures rows == StoreOne(old(rows), r, now, failed)
    {
      if !CanStore(r) || failed {
        return false;
      }
      rows := Upsert(rows, WriteOf(r, now));
      ok := true;
    }

    // Unlike StoreMessage this does not look for blank ids.
    method StoreMessagesBatch(batch: seq<Record>, now: string, failsAt: Option<nat>) returns (ok: bool)
      modifies this
      ensures ok == (batch == [] || failsAt.None? || failsAt.value > |batch|)
      ensures rows == if ok then Replay(old(rows), Writes(batch, now)) else old(rows)
    {
      if batch == [] {
        return true;
      }
      ok := StoreRows(Writes(batch, now), failsAt);
    }

    // One transaction; failsAt is the statement that fails, if any (|writes| is the commit).
    method StoreRows(writes: seq<Write>, failsAt: Option<nat>) returns (ok: bool)
      modifies this
      ensures ok == (failsAt.None? || failsAt.value > |writes|)
      ensures rows == if ok then Replay(old(rows), writes) else old(rows)
    {
      var pending := rows;
      for i := 0 to |writes|
        invariant rows == old(rows) && pending == Replay(rows, writes[..i])
        invariant failsAt.None? || failsAt.value >= i
      {
        if failsAt == Some(i) {
          return false;
        }
        assert writes[..i + 1][..i] == writes[..i];
        pending := Upsert(pending, writes[i]);
      }
      if failsAt == Some(|writes|) {
        return false;
      }
      assert writes[..|writes|] == writes;
      rows := pending;
      ok := true;
    }

    // UPDATE messages SET is_read = 1 WHERE owner_did = ? AND msg_id IN (...); affected is the number
    // of rows the statement matched. No statement is issued for an empty list.
    method MarkMessagesRead(ownerDID: string, ids: set<string>) returns (affected: nat)
      modifies this
      ensures rows.Keys == old(rows).Keys
      ensures forall k | k in rows :: rows[k].(isRead := false) == old(rows)[k].(isRead := false)
      ensures forall k | k in rows :: rows[k].isRead <==> old(rows)[k].isRead || Named(k, TrimSpace(ownerDID), ids)
      ensures affected == |set k | k in old(rows) && Named(k, TrimSpace(ownerDID), ids)|
    {
      if ids == {} {
        NobodyNamed(rows, TrimSpace(ownerDID));
        return 0;
      }
      affected := |set k | k in rows && Named(k, TrimSpace(ownerDID), ids)|;
      rows := MarkRead(rows, TrimSpace(ownerDID), ids);
    }
  }

  predicate Named(k: Key, owner: string, ids: set<string>) {
    k.owner == owner && k.msgID in ids
  }

  lemma NobodyNamed(rows: map<Key, Row>, owner: string)
    ensures (set k | k in rows && Named(k, owner, {})) == {}
  {}

  function MarkRead(table: map<Key, Row>, owner: string, ids: set<string>): map<Key, Row> {
    map k | k in table :: if Named(k, owner, ids) then table[k].(isRead := true) else table[k]
  }

  // ---- One key over a whole log ----

  function Project(log: seq<Write>, key: Key): seq<Row> {
    if log == [] then []
    else
      var last := log[|log| - 1];
      Project(log[..|log| - 1], key) + if last.key == key then [last.row] else []
  }

  // rs[0], then rs[1..] merged in one by one.
  function Fold(rs: seq<Row>): Row
    requires rs != []
  {
    if |rs| == 1 then rs[0] else Merge(Fold(rs[..|rs| - 1]), rs[|rs| - 1])
  }

  lemma FoldStep(rs: seq<Row>, r: Row)
    ensures Fold(rs + [r]) == if rs == [] then r else Merge(Fold(rs), r)
  {
    assert (rs + [r])[..|rs|] == rs;
  }

  // A row depends only on the writes to its own key.
  lemma {:induction false} RowIsFoldOfItsWrites(log: seq<Write>, key: Key)
    ensures key in Replay(map[], log) <==> Project(log, key) != []
    ensures key in Replay(map[], log) ==> Replay(map[], log)[key] == Fold(Project(log, key))
  {
    if log != [] {
      var before, last := log[..|log| - 1], log[|log| - 1];
      RowIsFoldOfItsWrites(before, key);
      if last.key == key {
        assert Project(log, key) == Project(before, key) + [last.row];
        FoldStep(Project(before, key), last.row);
      } else {
        assert Project(log, key) == Project(before, key);
      }
    }
  }

  // The records whose text can reach the row: those that are not wire ciphertext, and ciphertext
  // seen before any decrypted copy.
  predicate Effective(rs: seq<Row>, i: nat)
    requires i < |rs|
  {
    !Wire(rs[i]) || forall j | 0 <= j < i :: Wire(rs[j])
  }

  // What a column merged with COALESCE shows: the last value that is not NULL.
  function LastValue<T>(vs: seq<Option<T>>): Option<T> {
    if vs == [] then None else vs[|vs| - 1].OrElse(LastValue(vs[..|vs| - 1]))
  }

  function MetadataSeen(rs: seq<Row>): seq<Option<string>> {
    if rs == [] then [] else
      MetadataSeen(rs[..|rs| - 1]) + [if Effective(rs, |rs| - 1) then rs[|rs| - 1].metadata else None]
  }

  function Column<T>(rs: seq<Row>, column: Row -> Option<T>): seq<Option<T>> {
    if rs == [] then [] else Column(rs[..|rs| - 1], column) + [column(rs[|rs| - 1])]
  }

  // The record the text comes from: the last one that is not ciphertext, or the last one when all are.
  ghost predicate IsTextSource(rs: seq<Row>, i: nat) {
    && i < |rs|
    && (forall j | i < j < |rs| :: Wire(rs[j]))
    && (Wire(rs[i]) ==> i == |rs| - 1 && forall j | 0 <= j < |rs| :: Wire(rs[j]))
  }

  ghost predicate TextForm(row: Row, rs: seq<Row>) {
    && (exists i: nat :: IsTextSource(rs, i))
    && (forall i: nat | IsTextSource(rs, i) :: row.content == rs[i].content && row.contentType == rs[i].contentType)
  }

  ghost predicate FlagForm(row: Row, rs: seq<Row>) {
    && (row.isRead <==> exists i | 0 <= i < |rs| :: rs[i].isRead)
    && (row.isE2EE <==> exists i | 0 <= i < |rs| :: rs[i].isE2EE)
  }

  ghost predicate ColumnForm(row: Row, rs: seq<Row>)
    requires rs != []
  {
    && row.envelope == rs[|rs| - 1].envelope
    && row.storedAt == rs[0].storedAt
    && row.serverSeq == LastValue(Column(rs, (r: Row) => r.serverSeq))
    && row.sentAt == LastValue(Column(rs, (r: Row) => r.sentAt))
    && row.senderName == LastValue(Column(rs, (r: Row) => r.senderName))
    && row.metadata == LastValue(MetadataSeen(rs))
  }

  // Merging any sequence of records, one after the other, has a closed form.
  lemma {:induction false} MergeClosedForm(rs: seq<Row>)
    requires rs != []
    ensures TextForm(Fold(rs), rs) && FlagForm(Fold(rs), rs) && ColumnForm(Fold(rs), rs)
  {
    if |rs| == 1 {
      SingleRecord(rs);
    } else {
      var before, r := rs[..|rs| - 1], rs[|rs| - 1];
      assert rs == before + [r];
      MergeClosedForm(before);
      FoldStep(before, r);
      TextStep(before, r);
      FlagStep(before, r);
      ColumnsStep(before, r);
    }
  }

  lemma SingleRecord(rs: seq<Row>)
    requires |rs| == 1
    ensures TextForm(rs[0], rs) && FlagForm(rs[0], rs) && ColumnForm(rs[0], rs)
  {
    hide TextForm, FlagForm, ColumnForm;
    SingleText(rs);
    SingleColumns(rs);
  }

  lemma SingleText(rs: seq<Row>)
    requires |rs| == 1
    ensures TextForm(rs[0], rs) && FlagForm(rs[0], rs)
  {
    hide Wire;
    assert IsTextSource(rs, 0);
  }

  lemma SingleColumns(rs: seq<Row>)
    requires |rs| == 1
    ensures ColumnForm(rs[0], rs)
  {
    hide LastValue, Column, MetadataSeen, Wire;
    var r := rs[0];
    assert rs == [] + [r];
    LastValueStep([], r, (r: Row) => r.serverSeq);
    LastValueStep([], r, (r: Row) => r.sentAt);
    LastValueStep([], r, (r: Row) => r.senderName);
    NothingSeen((r: Row) => r.serverSeq);
    NothingSeen((r: Row) => r.sentAt);
    NothingSeen((r: Row) => r.senderName);
    SingleMetadata(rs);
  }

  lemma NothingSeen<T>(column: Row -> Option<T>)
    ensures LastValue(Column([], column)) == None
  {}

  lemma SingleMetadata(rs: seq<Row>)
    requires |rs| == 1
    ensures LastValue(MetadataSeen(rs)) == rs[0].metadata
  {
    hide Wire;
    assert Effective(rs, 0);
    assert MetadataSeen(rs) == MetadataSeen([]) + [rs[0].metadata];
  }

  lemma FlagStep(before: seq<Row>, r: Row)
    requires before != [] && FlagForm(Fold(before), before)
    ensures FlagForm(Merge(Fold(before), r), before + [r])
  {
    var rs := before + [r];
    assert rs[|before|] == r;
    assert forall i | 0 <= i < |before| :: rs[i] == before[i];
  }

  lemma TextStep(before: seq<Row>, r: Row)
    requires before != [] && TextForm(Fold(before), before)
    ensures TextForm(Merge(Fold(before), r), before + [r])
  {
    var rs := before + [r];
    var i: nat :| IsTextSource(before, i);
    var keep := Wire(r) && !Wire(Fold(before));
    assert Wire(Fold(before)) <==> Wire(before[i]);
    var source: nat := if keep then i else |before|;
    if !keep && Wire(r) {
      assert forall j | 0 <= j < |before| :: Wire(before[j]);
    }
    assert IsTextSource(rs, source);
    forall k: nat | IsTextSource(rs, k) ensures k == source {
      TextSourceUnique(rs, k, source);
    }
  }

  lemma TextSourceUnique(rs: seq<Row>, i: nat, j: nat)
    requires IsTextSource(rs, i) && IsTextSource(rs, j)
    ensures i == j
  {
  }

  lemma ColumnsStep(before: seq<Row>, r: Row)
    requires before != [] && TextForm(Fold(before), before) && ColumnForm(Fold(before), before)
    ensures ColumnForm(Merge(Fold(before), r), before + [r])
  {
    var rs := before + [r];
    assert rs[..|before|] == before && rs[|before|] == r;
    LastValueStep(before, r, (r: Row) => r.serverSeq);
    LastValueStep(before, r, (r: Row) => r.sentAt);
    LastValueStep(before, r, (r: Row) => r.senderName);
    MetadataStep(before, r);
  }

  lemma LastValueStep<T>(before: seq<Row>, r: Row, column: Row -> Option<T>)
    ensures LastValue(Column(before + [r], column)) == column(r).OrElse(LastValue(Column(before, column)))
  {
    assert (before + [r])[..|before|] == before;
    var vs := Column(before, column);
    assert (vs + [column(r)])[..|vs|] == vs;
  }

  lemma MetadataStep(before: seq<Row>, r: Row)
    requires before != [] && TextForm(Fold(before), before)
    ensures LastValue(MetadataSeen(before + [r])) ==
      if Wire(r) && !Wire(Fold(before)) then LastValue(MetadataSeen(before))
      else r.metadata.OrElse(LastValue(MetadataSeen(before)))
  {
    var rs := before + [r];
    assert rs[..|before|] == before;
    var vs := MetadataSeen(before);
    var seen := if Effective(rs, |before|) then r.metadata else None;
    assert MetadataSeen(rs) == vs + [seen];
    assert (vs + [seen])[..|vs|] == vs;
    var i: nat :| IsTextSource(before, i);
    assert Wire(Fold(before)) <==> Wire(before[i]);
    assert Effective(rs, |before|) <==> !(Wire(r) && !Wire(Fold(before))) by {
      assert forall j | 0 <= j < |before| :: rs[j] == before[j];
    }
  }

  // So every row of a table that only upserts have written is the closed form of the records
  // written to its key, whatever happened to other keys in between.
  lemma TableClosedForm(log: seq<Write>, key: Key)
    ensures key in Replay(map[], log) <==> exists i :: 0 <= i < |log| && log[i].key == key
    ensures key in Replay(map[], log) ==>
      var row, rs := Replay(map[], log)[key], Project(log, key);
      rs != [] && TextForm(row, rs) && FlagForm(row, rs) && ColumnForm(row, rs)
  {
    RowIsFoldOfItsWrites(log, key);
    ProjectNonEmpty(log, key);
    if key in Replay(map[], log) {
      MergeClosedForm(Project(log, key));
    }
  }

  lemma {:induction false} ProjectNonEmpty(log: seq<Write>, key: Key)
    ensures Project(log, key) != [] <==> exists i :: 0 <= i < |log| && log[i].key == key
  {
    if log != [] {
      var before := log[..|log| - 1];
      ProjectNonEmpty(before, key);
      if i :| 0 <= i < |before| && before[i].key == key {
        assert log[i].key == key;
      }
      if i :| 0 <= i < |log| && log[i].key == key && log[|log| - 1].key != key {
        assert before[i].key == key;
      }
    }
  }

  // Re-polled ciphertext never replaces decrypted text, and a flag that has been raised stays
  // raised, from any table and through any later writes.
  lemma {:induction false} DecryptedTextAndFlagsStay(table: map<Key, Row>, log: seq<Write>, key: Key)
    requires key in table
    ensures var after := Replay(table, log);
      && key in after
      && (table[key].isRead ==> after[key].isRead) && (table[key].isE2EE ==> after[key].isE2EE)
      && after[key].storedAt == table[key].storedAt
      && (!Wire(table[key]) ==> !Wire(after[key]))
      && (!Wire(table[key]) && (forall w | w in log && w.key == key :: Wire(w.row)) ==>
            after[key].content == table[key].content && after[key].contentType == table[key].contentType
            && after[key].metadata == table[key].metadata)
  {
    if log != [] {
      var before, last := log[..|log| - 1], log[|log| - 1];
      DecryptedTextAndFlagsStay(table, before, key);
      assert forall w | w in before :: w in log;
      assert last in log;
    }
  }

  // ---- Upserts and marks interleaved ----

  datatype Event = Stored(write: Write) | Marked(owner: string, ids: set<string>)

  function RunEvents(events: seq<Event>): map<Key, Row> {
    if events == [] then map[]
    else
      var before := RunEvents(events[..|events| - 1]);
      match events[|events| - 1]
      case Stored(w) => Upsert(before, w)
      case Marked(owner, ids) => MarkRead(before, owner, ids)
  }

  function StoredWrites(events: seq<Event>): seq<Write> {
    if events == [] then []
    else
      var before := StoredWrites(events[..|events| - 1]);
      match events[|events| - 1]
      case Stored(w) => before + [w]
      case Marked(_, _) => before
  }

  predicate StoresKey(events: seq<Event>, i: nat, key: Key)
    requires i < |events|
  {
    events[i].Stored? && events[i].write.key == key
  }

  // What can raise the flag of a key: a record that is read, or a mark that names the key once it is stored.
  ghost predicate Raises(events: seq<Event>, i: nat, key: Key)
    requires i < |events|
  {
    match events[i]
    case Stored(w) => w.key == key && w.row.isRead
    case Marked(owner, ids) => Named(key, owner, ids) && exists j: nat | j < i :: StoresKey(events, j, key)
  }

  ghost predicate Raised(events: seq<Event>, key: Key) {
    exists i: nat | i < |events| :: Raises(events, i, key)
  }

  ghost predicate IsStored(events: seq<Event>, key: Key) {
    exists i: nat | i < |events| :: StoresKey(events, i, key)
  }

  // table and plain, the table without the marks, agree on the key but for the flag.
  ghost predicate SameButFlag(table: map<Key, Row>, plain: map<Key, Row>, key: Key) {
    && (key in table <==> key in plain)
    && (key in table ==> table[key].(isRead := false) == plain[key].(isRead := false))
  }

  // Over any interleaving a row is read exactly when some event raised its flag; in every other column
  // the marks leave no trace, so the closed form of the upserts still describes it.
  lemma ReadFlagOverRuns(events: seq<Event>, key: Key)
    ensures key in RunEvents(events) <==> key in Replay(map[], StoredWrites(events))
    ensures key in RunEvents(events) <==> exists i: nat | i < |events| :: StoresKey(events, i, key)
    ensures key in RunEvents(events) ==>
      && RunEvents(events)[key].(isRead := false) == Replay(map[], StoredWrites(events))[key].(isRead := false)
      && (RunEvents(events)[key].isRead <==> Raised(events, key))
  {
    hide RunEvents, Replay, StoredWrites, Raised, StoresKey;
    MarksTouchTheFlag(events, key);
    FlagIsRaised(events, key);
  }

  lemma {:induction false} MarksTouchTheFlag(events: seq<Event>, key: Key)
    ensures SameButFlag(RunEvents(events), Replay(map[], StoredWrites(events)), key)
    decreases |events|
  {
    if events != [] {
      var before := events[..|events| - 1];
      var table, writes := RunEvents(before), StoredWrites(before);
      MarksTouchTheFlag(before, key);
      match events[|events| - 1]
      case Stored(w) =>
        assert (writes + [w])[..|writes|] == writes;
        UpsertSameButFlag(table, Replay(map[], writes), w, key);
      case Marked(owner, ids) =>
    }
  }

  lemma UpsertSameButFlag(table: map<Key, Row>, plain: map<Key, Row>, w: Write, key: Key)
    requires SameButFlag(table, plain, key)
    ensures SameButFlag(Upsert(table, w), Upsert(plain, w), key)
  {}

  lemma {:induction false} FlagIsRaised(events: seq<Event>, key: Key)
    ensures key in RunEvents(events) <==> IsStored(events, key)
    ensures key in RunEvents(events) ==> (RunEvents(events)[key].isRead <==> Raised(events, key))
    decreases |events|
  {
    hide Raised, Raises, StoresKey, IsStored;
    if events == [] {
      NothingStored(key);
    } else {
      var before, last := events[..|events| - 1], events[|events| - 1];
      FlagIsRaised(before, key);
      RaisedStep(events, key);
      StoresStep(events, key);
      RaisedIsStored(before, key);
      LastRaises(events, key);
      match last
      case Stored(w) =>
      case Marked(owner, ids) =>
    }
  }

  lemma NothingStored(key: Key)
    ensures !IsStored([], key)
  {}

  lemma LastRaises(events: seq<Event>, key: Key)
    requires events != []
    ensures var n := |events| - 1;
      && (Raises(events, n, key) <==> match events[n]
          case Stored(w) => w.key == key && w.row.isRead
          case Marked(owner, ids) => Named(key, owner, ids) && IsStored(events[..n], key))
      && (StoresKey(events, n, key) <==> events[n].Stored? && events[n].write.key == key)
  {
    var n := |events| - 1;
    assert forall i: nat | i < n :: StoresKey(events, i, key) == StoresKey(events[..n], i, key);
  }

  lemma RaisedIsStored(events: seq<Event>, key: Key)
    ensures Raised(events, key) ==> IsStored(events, key)
  {
    if i: nat :| i < |events| && Raises(events, i, key) {
      assert events[i].Stored? ==> StoresKey(events, i, key);
    }
  }

  lemma StoresStep(events: seq<Event>, key: Key)
    requires events != []
    ensures var n := |events| - 1; IsStored(events, key) <==> StoresKey(events, n, key) || IsStored(events[..n], key)
  {
    var n := |events| - 1;
    assert forall i: nat | i < n :: StoresKey(events, i, key) == StoresKey(events[..n], i, key);
  }

  lemma RaisedStep(events: seq<Event>, key: Key)
    requires events != []
    ensures var n := |events| - 1; Raised(events, key) <==> Raises(events, n, key) || Raised(events[..n], key)
  {
    var n := |events| - 1;
    forall i: nat | i < n ensures Raises(events, i, key) == Raises(events[..n], i, key) {
      assert forall j: nat | j < i :: StoresKey(events, j, key) == StoresKey(events[..n], j, key);
    }
  }
}
