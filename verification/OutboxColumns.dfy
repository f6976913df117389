// internal/store/dao.go: what a row of the e2ee_outbox table shows of the statements that were issued, column by
// column, over any interleaving.
module OutboxColumns {
  import opened Wrappers
  import opened Outbox

  // The WHERE clause, on the columns it names; they never change.
  predicate Reaches(op: Op, id: string, row: Row) {
    && op.id == id && !op.Insert?
    && if op.MarkSent? then op.owner == row.owner
       else if op.scope.ByOwner? then op.scope.owner == row.owner
       else op.scope.name == row.credential
  }

  // What a statement gives for a column: nothing when it leaves the column alone.
  function GivesStatus(op: Op): Option<Status> {
    if op.MarkSent? then Some(Sent)
    else if op.MarkFailed? then Some(Failed)
    else if op.SetStatus? then Some(op.status)
    else None
  }

  function GivesSession(op: Op): Option<Option<string>> {
    if op.MarkSent? && op.session.Some? then Some(op.session) else None
  }

  function GivesSentMsgID(op: Op): Option<Option<string>> {
    if op.MarkSent? && op.msgID.Some? then Some(op.msgID) else None
  }

  function GivesSentSeq(op: Op): Option<Option<int>> {
    if op.MarkSent? && op.seqNo.Some? then Some(op.seqNo) else None
  }

  // A row that is sent has no error any more.
  function GivesErrorCode(op: Op): Option<Option<string>> {
    if op.MarkSent? then Some(None) else if op.MarkFailed? then Some(Some(op.code)) else None
  }

  function GivesRetryHint(op: Op): Option<Option<string>> {
    if op.MarkSent? then Some(None) else if op.MarkFailed? && op.hint.Some? then Some(op.hint) else None
  }

  function GivesFailedMsgID(op: Op): Option<Option<string>> {
    if op.MarkSent? then Some(None)
    else if op.MarkFailed? && op.failedMsgID.Some? then Some(op.failedMsgID)
    else None
  }

  function GivesFailedSeq(op: Op): Option<Option<int>> {
    if op.MarkSent? then Some(None)
    else if op.MarkFailed? && op.failedSeq.Some? then Some(op.failedSeq)
    else None
  }

  function GivesMetadata(op: Op): Option<Option<Metadata>> {
    if (op.MarkSent? || op.MarkFailed?) && op.note.Some? then Some(op.note) else None
  }

  function GivesLastAttempt(op: Op): Option<Option<int>> {
    if op.MarkSent? then Some(Some(op.now)) else None
  }

  function GivesUpdated(op: Op): Option<int> {
    if op.Insert? then None else Some(op.now)
  }

  ghost predicate IsLastGift<T(!new)>(value: T, was: T, ops: seq<Op>, i: int, id: string, row: Row,
                                      gives: Op -> Option<T>)
  {
    0 <= i < |ops| && Reaches(ops[i], id, row) && gives(ops[i]) == Some(value)
    && forall j | i < j < |ops| && Reaches(ops[j], id, row) :: gives(ops[j]) == None
  }

  // The column shows what the last statement that reached the row and gave a value for it gave, and what it
  // was when there is none.
  ghost predicate ShowsLast<T(!new)>(value: T, was: T, ops: seq<Op>, id: string, row: Row, gives: Op -> Option<T>) {
    || (value == was && forall j | 0 <= j < |ops| && Reaches(ops[j], id, row) :: gives(ops[j]) == None)
    || exists i :: IsLastGift(value, was, ops, i, id, row, gives)
  }

  lemma OneMoreGift<T(!new)>(value: T, was: T, ops: seq<Op>, op: Op, id: string, row: Row, gives: Op -> Option<T>)
    requires ShowsLast(value, was, ops, id, row, gives)
    ensures ShowsLast(if Reaches(op, id, row) then gives(op).GetOr(value) else value, was, ops + [op], id, row, gives)
  {
    hide Reaches;
    var more := ops + [op];
    assert forall j | 0 <= j < |ops| :: more[j] == ops[j];
    if Reaches(op, id, row) && gives(op).Some? {
      assert IsLastGift(gives(op).value, was, more, |ops|, id, row, gives);
    } else if i :| IsLastGift(value, was, ops, i, id, row, gives) {
      assert IsLastGift(value, was, more, i, id, row, gives);
    }
  }

  ghost predicate ShowsOps(after: Row, was: Row, ops: seq<Op>, id: string) {
    && after.owner == was.owner && after.peer == was.peer && after.originalType == was.originalType
    && after.plaintext == was.plaintext && after.created == was.created && after.credential == was.credential
    && ShowsLast(after.status, was.status, ops, id, was, GivesStatus)
    && ShowsLast(after.session, was.session, ops, id, was, GivesSession)
    && ShowsLast(after.sentMsgID, was.sentMsgID, ops, id, was, GivesSentMsgID)
    && ShowsLast(after.sentSeq, was.sentSeq, ops, id, was, GivesSentSeq)
    && ShowsLast(after.errorCode, was.errorCode, ops, id, was, GivesErrorCode)
    && ShowsLast(after.retryHint, was.retryHint, ops, id, was, GivesRetryHint)
    && ShowsLast(after.failedMsgID, was.failedMsgID, ops, id, was, GivesFailedMsgID)
    && ShowsLast(after.failedSeq, was.failedSeq, ops, id, was, GivesFailedSeq)
    && ShowsLast(after.metadata, was.metadata, ops, id, was, GivesMetadata)
    && ShowsLast(after.lastAttempt, was.lastAttempt, ops, id, was, GivesLastAttempt)
    && ShowsLast(after.updated, was.updated, ops, id, was, GivesUpdated)
  }

  // How many statements have marked the row sent.
  function Marks(ops: seq<Op>, id: string, row: Row): nat {
    if ops == [] then 0
    else
      var op := ops[|ops| - 1];
      Marks(ops[..|ops| - 1], id, row) + if op.MarkSent? && Reaches(op, id, row) then 1 else 0
  }

  // A row after any statements.
  lemma {:induction false} RowShowsOps(rows: map<string, Row>, ops: seq<Op>, id: string)
    requires id in rows
    ensures id in Run(rows, ops) && ShowsOps(Run(rows, ops)[id], rows[id], ops, id)
    ensures Run(rows, ops)[id].attempts == rows[id].attempts + Marks(ops, id, rows[id])
  {
    hide ShowsOps, Reaches, Updated, Hits;
    if ops == [] {
      NothingGiven(rows[id], id);
    } else {
      var before, op := ops[..|ops| - 1], ops[|ops| - 1];
      RowShowsOps(rows, before, id);
      assert ops == before + [op];
      var row := Run(rows, before)[id];
      OwnerStays(row, rows[id], before, id);
      UpdateGives(row, op, id);
      GiftStep(row, Run(rows, ops)[id], rows[id], before, op, id);
    }
  }

  lemma NothingGiven(row: Row, id: string)
    ensures ShowsOps(row, row, [], id)
  {}

  lemma OwnerStays(after: Row, was: Row, ops: seq<Op>, id: string)
    requires ShowsOps(after, was, ops, id)
    ensures forall op :: Reaches(op, id, after) <==> Reaches(op, id, was)
  {
    hide ShowsLast;
  }

  ghost predicate Gives(before: Row, after: Row, op: Op, reached: bool) {
    if !reached then after == before
    else after == before.(
      status := GivesStatus(op).GetOr(before.status), session := GivesSession(op).GetOr(before.session),
      attempts := before.attempts + if op.MarkSent? then 1 else 0,
      sentMsgID := GivesSentMsgID(op).GetOr(before.sentMsgID), sentSeq := GivesSentSeq(op).GetOr(before.sentSeq),
      errorCode := GivesErrorCode(op).GetOr(before.errorCode),
      retryHint := GivesRetryHint(op).GetOr(before.retryHint),
      failedMsgID := GivesFailedMsgID(op).GetOr(before.failedMsgID),
      failedSeq := GivesFailedSeq(op).GetOr(before.failedSeq), metadata := GivesMetadata(op).GetOr(before.metadata),
      lastAttempt := GivesLastAttempt(op).GetOr(before.lastAttempt), updated := GivesUpdated(op).GetOr(before.updated))
  }

  // One statement.
  lemma UpdateGives(row: Row, op: Op, id: string)
    ensures forall table: map<string, Row> | id in table && table[id] == row ::
      id in Apply(table, op) && Gives(row, Apply(table, op)[id], op, Reaches(op, id, row))
  {}

  lemma GiftStep(before: Row, after: Row, was: Row, ops: seq<Op>, op: Op, id: string)
    requires ShowsOps(before, was, ops, id) && Gives(before, after, op, Reaches(op, id, was))
    ensures ShowsOps(after, was, ops + [op], id)
  {
    hide ShowsLast, Reaches;
    OneMoreGift(before.status, was.status, ops, op, id, was, GivesStatus);
    OneMoreGift(before.session, was.session, ops, op, id, was, GivesSession);
    OneMoreGift(before.sentMsgID, was.sentMsgID, ops, op, id, was, GivesSentMsgID);
    OneMoreGift(before.sentSeq, was.sentSeq, ops, op, id, was, GivesSentSeq);
    OneMoreGift(before.errorCode, was.errorCode, ops, op, id, was, GivesErrorCode);
    OneMoreGift(before.retryHint, was.retryHint, ops, op, id, was, GivesRetryHint);
    OneMoreGift(before.failedMsgID, was.failedMsgID, ops, op, id, was, GivesFailedMsgID);
    OneMoreGift(before.failedSeq, was.failedSeq, ops, op, id, was, GivesFailedSeq);
    OneMoreGift(before.metadata, was.metadata, ops, op, id, was, GivesMetadata);
    OneMoreGift(before.lastAttempt, was.lastAttempt, ops, op, id, was, GivesLastAttempt);
    OneMoreGift(before.updated, was.updated, ops, op, id, was, GivesUpdated);
  }
}
