// The e2ee_outbox table of internal/store/dao.go: a queued / sent / failed / dropped state machine.
// Every SQL statement is one atomic operation, so a sequence of operations is any interleaving of
// the commands that issue them.
module Outbox {
  import opened Wrappers
  import opened Text

  datatype Status = Queued | Sent | Failed | Dropped

  // The JSON documents the program stores in the metadata column.
  datatype Metadata =
    | PendingConfirmation
    | Detail(text: string)
    | UnsupportedType(text: string)
    | Delivery(target: string, operationID: string, state: string)

  datatype Row = Row(
    owner: string, peer: string, session: Option<string>, originalType: string, plaintext: string, status: Status,
    attempts: nat, sentMsgID: Option<string>, sentSeq: Option<int>, errorCode: Option<string>,
    retryHint: Option<string>,
    failedMsgID: Option<string>, failedSeq: Option<int>, metadata: Option<Metadata>, lastAttempt: Option<int>,
    created: int, updated: int, credential: string)

  // WHERE owner_did = ? when the owner is known, else WHERE credential_name = ?.
  datatype Scope = ByOwner(owner: string) | ByCredential(name: string)

  function ScopeOf(ownerDID: string, credential: string): Scope {
    if Blank(ownerDID) then ByCredential(TrimSpace(credential)) else ByOwner(TrimSpace(ownerDID))
  }

  predicate InScope(row: Row, scope: Scope) {
    match scope
    case ByOwner(o) => row.owner == o
    case ByCredential(c) => row.credential == c
  }

  datatype Op =
    | Insert(id: string, row: Row)
    | MarkSent(id: string, owner: string, session: Option<string>, msgID: Option<string>, seqNo: Option<int>,
               note: Option<Metadata>, now: int)
    | MarkFailed(id: string, scope: Scope, code: string, hint: Option<string>, failedMsgID: Option<string>,
                 failedSeq: Option<int>, note: Option<Metadata>, now: int)
    | SetStatus(id: string, scope: Scope, status: Status, now: int)

  // The WHERE clause of an update matches the row.
  predicate Hits(op: Op, row: Row) {
    match op
    case Insert(_, _) => false
    case MarkSent(_, owner, _, _, _, _, _) => row.owner == owner
    case MarkFailed(_, scope, _, _, _, _, _, _) => InScope(row, scope)
    case SetStatus(_, scope, _, _) => InScope(row, scope)
  }

  function Updated(op: Op, row: Row): Row {
    match op
    case Insert(_, _) => row
    case MarkSent(_, _, session, msgID, seqNo, note, now) =>
      row.(session := session.OrElse(row.session), status := Sent, attempts := row.attempts + 1,
           sentMsgID := msgID.OrElse(row.sentMsgID), sentSeq := seqNo.OrElse(row.sentSeq),
           metadata := note.OrElse(row.metadata),
           lastAttempt := Some(now), updated := now,
           errorCode := None, retryHint := None, failedMsgID := None, failedSeq := None)
    case MarkFailed(_, _, code, hint, failedMsgID, failedSeq, note, now) =>
      row.(status := Failed, errorCode := Some(code), retryHint := hint.OrElse(row.retryHint),
           failedMsgID := failedMsgID.OrElse(row.failedMsgID), failedSeq := failedSeq.OrElse(row.failedSeq),
           metadata := note.OrElse(row.metadata), updated := now)
    case SetStatus(_, _, status, now) => row.(status := status, updated := now)
  }

  // An insert with a key that is taken is an error and changes nothing.
  function Apply(rows: map<string, Row>, op: Op): map<string, Row> {
    if op.Insert? then (if op.id in rows then rows else rows[op.id := op.row])
    else if op.id in rows && Hits(op, rows[op.id]) then rows[op.id := Updated(op, rows[op.id])]
    else rows
  }

  function Run(rows: map<string, Row>, ops: seq<Op>): map<string, Row> {
    if ops == [] then rows else Apply(Run(rows, ops[..|ops| - 1]), ops[|ops| - 1])
  }

  lemma RunStep(rows: map<string, Row>, ops: seq<Op>, op: Op)
    ensures Run(rows, ops + [op]) == Apply(Run(rows, ops), op)
  {
    assert (ops + [op])[..|ops|] == ops;
  }

  // The operations the commands issue: a queued row starts with no history, retry and repair queue,
  // drop drops.
  predicate Permitted(op: Op) {
    match op
    case Insert(_, row) => row.status == Queued && row.attempts == 0 && row.sentMsgID.None?
    case SetStatus(_, _, status, _) => status == Queued || status == Dropped
    case _ => true
  }

  // And a send is recorded with the message id it was given.
  predicate Issued(op: Op) {
    Permitted(op) && (op.MarkSent? ==> op.msgID.Some?)
  }

  predicate Sound(row: Row) {
    && (row.status == Sent ==> row.sentMsgID.Some? && row.errorCode.None? && row.retryHint.None?
                               && row.failedMsgID.None? && row.failedSeq.None?)
    && (row.status == Failed ==> row.errorCode.Some?)
  }

  // How often the row has been marked sent.
  function SentCount(rows: map<string, Row>, ops: seq<Op>, id: string): nat {
    if ops == [] then 0
    else
      var before, op := ops[..|ops| - 1], ops[|ops| - 1];
      var state := Run(rows, before);
      SentCount(rows, before, id) + if op.MarkSent? && op.id == id && id in state && Hits(op, state[id]) then 1 else 0
  }

  predicate SameMessage(a: Row, b: Row) {
    a.owner == b.owner && a.peer == b.peer && a.originalType == b.originalType && a.plaintext == b.plaintext
    && a.created == b.created && a.credential == b.credential
  }

  // Over any interleaving, from an empty outbox.
  lemma {:induction false} OutboxIsSound(ops: seq<Op>, id: string)
    requires forall op | op in ops :: Issued(op)
    requires id in Run(map[], ops)
    ensures Sound(Run(map[], ops)[id])
    ensures Run(map[], ops)[id].attempts == SentCount(map[], ops, id)
  {
    if ops != [] {
      var before, op := ops[..|ops| - 1], ops[|ops| - 1];
      assert op in ops && forall o | o in before :: o in ops;
      var state := Run(map[], before);
      if id in state {
        OutboxIsSound(before, id);
      } else {
        NeverMarked(before, id);
      }
    }
  }

  lemma {:induction false} NeverMarked(ops: seq<Op>, id: string)
    requires id !in Run(map[], ops)
    ensures SentCount(map[], ops, id) == 0
  {
    if ops != [] {
      NeverMarked(ops[..|ops| - 1], id);
    }
  }

  // No row disappears, and what was queued for whom never changes.
  lemma {:induction false} RowsAreKept(rows: map<string, Row>, ops: seq<Op>, id: string)
    requires id in rows
    ensures id in Run(rows, ops) && SameMessage(rows[id], Run(rows, ops)[id])
    ensures Run(rows, ops)[id].attempts >= rows[id].attempts
  {
    if ops != [] {
      RowsAreKept(rows, ops[..|ops| - 1], id);
    }
  }

  // The operation marks the row as sent, with a message id.
  predicate Identifies(rows: map<string, Row>, op: Op, id: string) {
    op.MarkSent? && op.id == id && op.msgID.Some? && id in rows && Hits(op, rows[id])
  }

  // Some operation has.
  ghost predicate Identified(rows: map<string, Row>, ops: seq<Op>, id: string) {
    exists k | 0 <= k < |ops| :: Identifies(Run(rows, ops[..k]), ops[k], id)
  }

  // Marks with and without a message id, over any interleaving from an empty outbox: a row has a message id
  // exactly when some mark that hit it carried one, and a row that is not sound has been sent without one
  // every time.
  lemma {:induction false} SentWithoutID(ops: seq<Op>, id: string)
    requires forall op | op in ops :: Permitted(op)
    ensures id in Run(map[], ops) ==>
      var row := Run(map[], ops)[id];
      && (row.sentMsgID.Some? <==> Identified(map[], ops, id))
      && (Sound(row) <==> (row.status == Sent ==> Identified(map[], ops, id)))
    ensures id !in Run(map[], ops) ==> !Identified(map[], ops, id)
  {
    hide Identified;
    if ops == [] {
      NoneIdentified(id);
    } else {
      var before, op := ops[..|ops| - 1], ops[|ops| - 1];
      assert op in ops && forall o | o in before :: o in ops;
      SentWithoutID(before, id);
      IdentifiedStep(map[], ops, id);
    }
  }

  lemma NoneIdentified(id: string)
    ensures !Identified(map[], [], id)
  {}

  lemma IdentifiedStep(rows: map<string, Row>, ops: seq<Op>, id: string)
    requires ops != []
    ensures var before, op := ops[..|ops| - 1], ops[|ops| - 1];
      Identified(rows, ops, id) <==> Identified(rows, before, id) || Identifies(Run(rows, before), op, id)
  {
    hide Identifies, Run;
    var before := ops[..|ops| - 1];
    assert forall k | 0 <= k < |before| :: before[..k] == ops[..k] && before[k] == ops[k];
    if Identified(rows, before, id) {
      var k :| 0 <= k < |before| && Identifies(Run(rows, before[..k]), before[k], id);
      assert Identifies(Run(rows, ops[..k]), ops[k], id);
    }
  }

  // Operations on other rows do not matter.
  lemma {:induction false} OtherRowsUnchanged(rows: map<string, Row>, ops: seq<Op>, id: string)
    requires forall op | op in ops :: op.id != id
    ensures id in Run(rows, ops) <==> id in rows
    ensures id in rows ==> Run(rows, ops)[id] == rows[id]
  {
    if ops != [] {
      var before, op := ops[..|ops| - 1], ops[|ops| - 1];
      assert op in ops && forall o | o in before :: o in ops;
      OtherRowsUnchanged(rows, before, id);
    }
  }

  // With one operation on the row, the row is that operation applied to what it was.
  lemma {:induction false} OneOpOnRow(rows: map<string, Row>, ops: seq<Op>, k: nat)
    requires k < |ops| && ops[k].id in rows && !ops[k].Insert?
    requires forall i | 0 <= i < |ops| && i != k :: ops[i].id != ops[k].id
    ensures var id := ops[k].id;
      id in Run(rows, ops)
      && Run(rows, ops)[id] == if Hits(ops[k], rows[id]) then Updated(ops[k], rows[id]) else rows[id]
  {
    var before := ops[..|ops| - 1];
    var id := ops[k].id;
    if k == |ops| - 1 {
      forall op | op in before ensures op.id != id {
        var i :| 0 <= i < |before| && before[i] == op;
        assert ops[i].id != id;
      }
      OtherRowsUnchanged(rows, before, id);
    } else {
      assert before[k] == ops[k];
      OneOpOnRow(rows, before, k);
    }
  }
}
