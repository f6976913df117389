// internal/store/dao.go: what the messages table shows of the records that were stored, column by column.
module MessageRecords {
  import opened Wrappers
  import opened Text
  import opened MessageStore

  // A record that is written, and the time of its writing.
  datatype Arrival = Arrival(record: Record, now: string)

  function WritesOf(log: seq<Arrival>): (ws: seq<Write>)
    ensures |ws| == |log|
    ensures forall i | 0 <= i < |log| :: ws[i] == WriteOf(log[i].record, log[i].now)
  {
    seq(|log|, i requires 0 <= i < |log| => WriteOf(log[i].record, log[i].now))
  }

  predicate IsFor(a: Arrival, id: string, owner: string) {
    a.record.msgID == id && TrimSpace(a.record.ownerDID) == owner
  }

  // The records stored under one message id for one owner, in order.
  function StoredFor(log: seq<Arrival>, id: string, owner: string): (mine: seq<Arrival>)
    ensures forall a :: a in mine <==> a in log && IsFor(a, id, owner)
  {
    if log == [] then []
    else
      var last := log[|log| - 1];
      var before := StoredFor(log[..|log| - 1], id, owner);
      assert log == log[..|log| - 1] + [last];
      if IsFor(last, id, owner) then before + [last] else before
  }

  // ---- Columns ----

  // A text column: NULL when the text is blank, and trimmed otherwise.
  ghost predicate Shows(column: Option<string>, text: string) {
    column == if TrimSpace(text) == "" then None else Some(TrimSpace(text))
  }

  // The value of the last of n records that has one, NULL when none has.
  ghost predicate IsLastGiven<T(!new)>(column: Option<T>, n: nat, value: (int, T) -> bool) {
    match column
    case None => forall i, v | 0 <= i < n :: !value(i, v)
    case Some(v) => exists i :: 0 <= i < n && value(i, v) && forall j, w | i < j < n :: !value(j, w)
  }

  predicate IsCiphertext(r: Record) {
    || r.contentType == "application/anp-direct-init+json"
    || r.contentType == "application/anp-direct-cipher+json"
  }

  // The record counts for the text: it is readable, or no readable one was stored before it.
  predicate Counts(mine: seq<Arrival>, i: int)
    requires 0 <= i < |mine|
  {
    !IsCiphertext(mine[i].record) || forall j | 0 <= j < i :: IsCiphertext(mine[j].record)
  }

  // What always comes from the last record.
  ghost predicate ShowsEnvelope(row: Row, r: Record) {
    && row.envelope.threadID == r.threadID && row.envelope.direction == r.direction
    && Shows(row.envelope.senderDID, r.senderDID) && Shows(row.envelope.receiverDID, r.receiverDID)
    && Shows(row.envelope.groupID, r.groupID) && Shows(row.envelope.groupDID, r.groupDID)
    && Shows(row.envelope.title, r.title) && row.envelope.credentialName == TrimSpace(r.credentialName)
  }

  // Flags that any record raises, and columns of the last record that has a value.
  ghost predicate ShowsFlags(row: Row, mine: seq<Arrival>) {
    && (row.isRead <==> exists i :: 0 <= i < |mine| && mine[i].record.isRead)
    && (row.isE2EE <==> exists i :: 0 <= i < |mine| && mine[i].record.isE2EE)
  }

  ghost predicate ShowsValues(row: Row, mine: seq<Arrival>) {
    && IsLastGiven(row.serverSeq, |mine|, (i, v) => 0 <= i < |mine| && mine[i].record.serverSeq == Some(v))
    && IsLastGiven(row.sentAt, |mine|, (i, v) =>
         0 <= i < |mine| && v != "" && v == TrimSpace(mine[i].record.sentAt))
    && IsLastGiven(row.senderName, |mine|, (i, v) =>
         0 <= i < |mine| && v != "" && v == TrimSpace(mine[i].record.senderName))
    && IsLastGiven(row.metadata, |mine|, (i, v) =>
         0 <= i < |mine| && Counts(mine, i) && v != "" && v == TrimSpace(mine[i].record.metadata))
  }

  // The text and its type come from the last record that counts.
  ghost predicate ShowsText(row: Row, mine: seq<Arrival>) {
    exists i :: 0 <= i < |mine| && Counts(mine, i) && (forall j | i < j < |mine| :: !Counts(mine, j))
      && row.content == mine[i].record.content
      && row.contentType == (if TrimSpace(mine[i].record.contentType) == "" then "text" else mine[i].record.contentType)
  }

  // The time of the first record.
  ghost predicate ShowsTime(row: Row, first: Arrival) {
    row.storedAt == if TrimSpace(first.record.storedAt) == "" then first.now else first.record.storedAt
  }

  ghost predicate ShowsRecords(row: Row, mine: seq<Arrival>) {
    mine != [] && ShowsEnvelope(row, mine[|mine| - 1].record) && ShowsFlags(row, mine) && ShowsValues(row, mine)
    && ShowsText(row, mine) && ShowsTime(row, mine[0])
  }

  // After any records there is a row exactly for the message ids and owners that occur, and every column of
  // it is this function of the records stored for it.
  lemma RowShowsRecords(log: seq<Arrival>, id: string, owner: string)
    ensures var table, mine := Replay(map[], WritesOf(log)), StoredFor(log, id, owner);
      && (Key(id, owner) in table <==> mine != [])
      && (mine != [] ==> ShowsRecords(table[Key(id, owner)], mine))
  {
    hide Replay, ShowsEnvelope, ShowsFlags, ShowsValues, ShowsText, ShowsTime, TextForm, FlagForm, ColumnForm,
      StoredFor, Project, AreRowsOf, WritesOf, Fold;
    var key, ws, mine := Key(id, owner), WritesOf(log), StoredFor(log, id, owner);
    TableClosedForm(ws, key);
    RowIsFoldOfItsWrites(ws, key);
    ProjectedRows(log, id, owner);
    SameLength(Project(ws, key), mine);
    if mine != [] {
      var row, rs := Replay(map[], ws)[key], Project(ws, key);
      EnvelopeIsShown(row, rs, mine);
      FlagsAreShown(row, rs, mine);
      ValuesAreShown(row, rs, mine);
      TextIsShown(row, rs, mine);
    }
  }

  ghost predicate AreRowsOf(rs: seq<Row>, mine: seq<Arrival>) {
    |rs| == |mine| && forall i | 0 <= i < |mine| :: rs[i] == RowOf(mine[i].record, mine[i].now)
  }

  lemma SameLength(rs: seq<Row>, mine: seq<Arrival>)
    requires AreRowsOf(rs, mine)
    ensures |rs| == |mine|
  {}

  lemma {:induction false} ProjectedRows(log: seq<Arrival>, id: string, owner: string)
    ensures AreRowsOf(Project(WritesOf(log), Key(id, owner)), StoredFor(log, id, owner))
    decreases |log|
  {
    hide RowOf, TrimSpace;
    if log != [] {
      var before, last := log[..|log| - 1], log[|log| - 1];
      ProjectedRows(before, id, owner);
      var ws := WritesOf(log);
      assert ws[..|ws| - 1] == WritesOf(before);
      assert ws[|ws| - 1] == WriteOf(last.record, last.now);
    }
  }

  lemma EnvelopeIsShown(row: Row, rs: seq<Row>, mine: seq<Arrival>)
    requires mine != [] && AreRowsOf(rs, mine) && ColumnForm(row, rs)
    ensures ShowsEnvelope(row, mine[|mine| - 1].record) && ShowsTime(row, mine[0])
  {
    hide LastValue, Column, MetadataSeen, TrimSpace;
  }

  lemma FlagsAreShown(row: Row, rs: seq<Row>, mine: seq<Arrival>)
    requires AreRowsOf(rs, mine) && FlagForm(row, rs)
    ensures ShowsFlags(row, mine)
  {
    hide RowOf;
    forall i | 0 <= i < |mine|
      ensures rs[i].isRead == mine[i].record.isRead && rs[i].isE2EE == mine[i].record.isE2EE
    {
      RowFlags(mine[i].record, mine[i].now);
    }
  }

  lemma RowFlags(r: Record, now: string)
    ensures RowOf(r, now).isRead == r.isRead && RowOf(r, now).isE2EE == r.isE2EE
  {}

  lemma {:induction false} LastValueIsLastGiven<T(!new)>(vs: seq<Option<T>>, value: (int, T) -> bool)
    requires forall i, v | 0 <= i < |vs| :: value(i, v) <==> vs[i] == Some(v)
    ensures IsLastGiven(LastValue(vs), |vs|, value)
    decreases |vs|
  {
    if vs != [] {
      LastValueIsLastGiven(vs[..|vs| - 1], value);
    }
  }

  lemma {:induction false} ColumnAt<T>(rs: seq<Row>, column: Row -> Option<T>)
    ensures |Column(rs, column)| == |rs| && forall i | 0 <= i < |rs| :: Column(rs, column)[i] == column(rs[i])
    decreases |rs|
  {
    if rs != [] {
      ColumnAt(rs[..|rs| - 1], column);
    }
  }

  lemma {:induction false} MetadataAt(rs: seq<Row>)
    ensures |MetadataSeen(rs)| == |rs|
    ensures forall i | 0 <= i < |rs| :: MetadataSeen(rs)[i] == if Effective(rs, i) then rs[i].metadata else None
    decreases |rs|
  {
    hide Wire;
    if rs != [] {
      var before := rs[..|rs| - 1];
      MetadataAt(before);
      assert forall i | 0 <= i < |before| :: Effective(before, i) == Effective(rs, i);
    }
  }

  lemma ValuesAreShown(row: Row, rs: seq<Row>, mine: seq<Arrival>)
    requires mine != [] && AreRowsOf(rs, mine) && ColumnForm(row, rs)
    ensures ShowsValues(row, mine)
  {
    hide LastValue, Column, MetadataSeen, TrimSpace, IsLastGiven, RowOf, Effective, Counts;
    ColumnAt(rs, (r: Row) => r.serverSeq);
    ColumnAt(rs, (r: Row) => r.sentAt);
    ColumnAt(rs, (r: Row) => r.senderName);
    MetadataAt(rs);
    forall i | 0 <= i < |mine|
      ensures rs[i].serverSeq == mine[i].record.serverSeq && Shows(rs[i].sentAt, mine[i].record.sentAt)
      ensures Shows(rs[i].senderName, mine[i].record.senderName) && Shows(rs[i].metadata, mine[i].record.metadata)
      ensures Effective(rs, i) <==> Counts(mine, i)
    {
      RowValues(mine[i].record, mine[i].now);
      CountsAre(rs, mine, i);
    }
    LastValueIsLastGiven(Column(rs, (r: Row) => r.serverSeq),
                         (i, v) => 0 <= i < |mine| && mine[i].record.serverSeq == Some(v));
    LastValueIsLastGiven(Column(rs, (r: Row) => r.sentAt),
                         (i, v) => 0 <= i < |mine| && v != "" && v == TrimSpace(mine[i].record.sentAt));
    LastValueIsLastGiven(Column(rs, (r: Row) => r.senderName),
                         (i, v) => 0 <= i < |mine| && v != "" && v == TrimSpace(mine[i].record.senderName));
    LastValueIsLastGiven(MetadataSeen(rs), (i, v) =>
      0 <= i < |mine| && Counts(mine, i) && v != "" && v == TrimSpace(mine[i].record.metadata));
  }

  lemma RowValues(r: Record, now: string)
    ensures var row := RowOf(r, now);
      row.serverSeq == r.serverSeq && Shows(row.sentAt, r.sentAt) && Shows(row.senderName, r.senderName)
      && Shows(row.metadata, r.metadata)
  {
    hide TrimSpace;
  }

  lemma CountsAre(rs: seq<Row>, mine: seq<Arrival>, i: nat)
    requires AreRowsOf(rs, mine) && i < |mine|
    ensures Effective(rs, i) <==> Counts(mine, i)
  {
    hide RowOf, Wire, IsCiphertext;
    forall j | 0 <= j < |mine| ensures Wire(rs[j]) <==> IsCiphertext(mine[j].record) {
      CiphertextRow(mine[j].record, mine[j].now);
    }
  }

  lemma CiphertextRow(r: Record, now: string)
    ensures Wire(RowOf(r, now)) <==> IsCiphertext(r)
  {
    hide TrimSpace;
    if IsCiphertext(r) {
      assert Trimmed(r.contentType);
      TrimmedUnchanged(r.contentType);
    }
  }

  lemma TextIsShown(row: Row, rs: seq<Row>, mine: seq<Arrival>)
    requires mine != [] && AreRowsOf(rs, mine) && TextForm(row, rs)
    ensures ShowsText(row, mine)
  {
    hide RowOf, Wire, IsCiphertext, TrimSpace;
    var i: nat :| IsTextSource(rs, i);
    forall j | 0 <= j < |mine|
      ensures rs[j].content == mine[j].record.content && (Wire(rs[j]) <==> IsCiphertext(mine[j].record))
      ensures rs[j].contentType ==
        if TrimSpace(mine[j].record.contentType) == "" then "text" else mine[j].record.contentType
    {
      CiphertextRow(mine[j].record, mine[j].now);
      RowText(mine[j].record, mine[j].now);
    }
    assert row.content == rs[i].content && row.contentType == rs[i].contentType;
    assert Counts(mine, i);
  }

  lemma RowText(r: Record, now: string)
    ensures RowOf(r, now).content == r.content
    ensures RowOf(r, now).contentType == if TrimSpace(r.contentType) == "" then "text" else r.contentType
  {
    hide TrimSpace;
  }

  // ---- The operations ----

  // StoreMessage with what the database made of it.
  datatype Call = Call(record: Record, now: string, failed: bool)

  function Stored(calls: seq<Call>): map<Key, Row> {
    if calls == [] then map[]
    else
      var c := calls[|calls| - 1];
      StoreOne(Stored(calls[..|calls| - 1]), c.record, c.now, c.failed)
  }

  // The calls that have a message id and a thread and do not fail.
  function Accepted(calls: seq<Call>): seq<Arrival> {
    if calls == [] then []
    else
      var c, before := calls[|calls| - 1], Accepted(calls[..|calls| - 1]);
      if TrimSpace(c.record.msgID) != "" && TrimSpace(c.record.threadID) != "" && !c.failed
      then before + [Arrival(c.record, c.now)] else before
  }

  // So the row says the same about calls of StoreMessage.
  lemma {:induction false} CallsAreRecords(calls: seq<Call>)
    ensures Stored(calls) == Replay(map[], WritesOf(Accepted(calls)))
  {
    hide TrimSpace, WriteOf, Upsert;
    if calls != [] {
      var before, c := calls[..|calls| - 1], calls[|calls| - 1];
      CallsAreRecords(before);
      OneMore(Accepted(before), Arrival(c.record, c.now));
    }
  }

  lemma OneMore(log: seq<Arrival>, a: Arrival)
    ensures Replay(map[], WritesOf(log + [a])) == Upsert(Replay(map[], WritesOf(log)), WriteOf(a.record, a.now))
  {
    hide WriteOf, Upsert;
    assert (log + [a])[..|log|] == log;
    var ws := WritesOf(log + [a]);
    assert ws[..|ws| - 1] == WritesOf(log);
  }

  function Arrivals(batch: seq<Record>, now: string): (log: seq<Arrival>)
    ensures |log| == |batch| && forall i | 0 <= i < |log| :: log[i] == Arrival(batch[i], now)
  {
    seq(|batch|, i requires 0 <= i < |batch| => Arrival(batch[i], now))
  }

  // And about batches, which are stored record by record without that check.
  lemma {:induction false} BatchIsRecords(log: seq<Arrival>, batch: seq<Record>, now: string)
    ensures Replay(Replay(map[], WritesOf(log)), Writes(batch, now))
      == Replay(map[], WritesOf(log + Arrivals(batch, now)))
    decreases |batch|
  {
    hide WriteOf, Upsert, WritesOf, Arrivals, Replay;
    if batch == [] {
      assert log + Arrivals(batch, now) == log;
      EmptyBatch(Replay(map[], WritesOf(log)), now);
    } else {
      var before, last := batch[..|batch| - 1], batch[|batch| - 1];
      BatchIsRecords(log, before, now);
      OneMore(log + Arrivals(before, now), Arrival(last, now));
      assert log + Arrivals(batch, now) == log + Arrivals(before, now) + [Arrival(last, now)];
      LastOfBatch(Replay(map[], WritesOf(log)), batch, now);
    }
  }

  lemma EmptyBatch(table: map<Key, Row>, now: string)
    ensures Replay(table, Writes([], now)) == table
  {}

  lemma LastOfBatch(table: map<Key, Row>, batch: seq<Record>, now: string)
    requires batch != []
    ensures Replay(table, Writes(batch, now))
      == Upsert(Replay(table, Writes(batch[..|batch| - 1], now)), WriteOf(batch[|batch| - 1], now))
  {
    hide WriteOf, Upsert;
    assert Writes(batch, now)[..|batch| - 1] == Writes(batch[..|batch| - 1], now);
  }

  // ---- Records and marks ----

  datatype Happening = Arrived(arrival: Arrival) | ReadMarked(ownerDID: string, ids: set<string>)

  function EventsOf(run: seq<Happening>): (es: seq<Event>)
    ensures |es| == |run|
  {
    seq(|run|, i requires 0 <= i < |run| => match run[i]
      case Arrived(a) => Event.Stored(WriteOf(a.record, a.now))
      case ReadMarked(ownerDID, ids) => Marked(TrimSpace(ownerDID), ids))
  }

  predicate ArrivedFor(run: seq<Happening>, i: nat, id: string, owner: string)
    requires i < |run|
  {
    run[i].Arrived? && IsFor(run[i].arrival, id, owner)
  }

  // A message is stored as read, or it is there and a mark names it.
  ghost predicate MakesRead(run: seq<Happening>, i: nat, id: string, owner: string)
    requires i < |run|
  {
    match run[i]
    case Arrived(a) => IsFor(a, id, owner) && a.record.isRead
    case ReadMarked(ownerDID, ids) =>
      TrimSpace(ownerDID) == owner && id in ids && exists j: nat | j < i :: ArrivedFor(run, j, id, owner)
  }

  // Over any interleaving of records and marks a message is read exactly when something made it so.
  lemma ReadFlagOfRecords(run: seq<Happening>, id: string, owner: string)
    ensures var table, key := RunEvents(EventsOf(run)), Key(id, owner);
      && (key in table <==> exists i: nat | i < |run| :: ArrivedFor(run, i, id, owner))
      && (key in table ==> (table[key].isRead <==> exists i: nat | i < |run| :: MakesRead(run, i, id, owner)))
  {
    hide RunEvents, RowOf, TrimSpace, Replay, StoredWrites;
    var es, key := EventsOf(run), Key(id, owner);
    ReadFlagOverRuns(es, key);
    forall i: nat | i < |run| ensures StoresKey(es, i, key) <==> ArrivedFor(run, i, id, owner) {
      assert es[i].Stored? <==> run[i].Arrived?;
    }
    forall i: nat | i < |run| ensures Raises(es, i, key) <==> MakesRead(run, i, id, owner) {
      if run[i].Arrived? {
        RowFlags(run[i].arrival.record, run[i].arrival.now);
      }
    }
  }
}
