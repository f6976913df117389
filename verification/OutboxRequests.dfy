// What a flush makes of one queued row: FlushQueuedSecureOutbox of internal/message/secure_control.go, on the
// fields of the row, of its request and of the row afterwards.
module OutboxRequests {
  import opened Wrappers
  import opened Text
  import opened Sorting
  import opened Outbox
  import opened OutboxFlush
  import opened OutboxProofs
  import Messages = MessageStore
  import opened MessageRecords

  // The row is for the chosen peer, or any peer is meant, and it can be addressed.
  predicate IsMeant(env: Env, id: string, row: Row) {
    (TrimSpace(env.peer) == "" || row.peer == TrimSpace(env.peer)) && id != "" && row.peer != ""
  }

  predicate IsText(row: Row) {
    TrimSpace(row.originalType) == "" || row.originalType == "text"
  }

  // The requests with the message id of a row, in order.
  function RequestsFor(requests: seq<Request>, id: string): seq<Request> {
    if requests == [] then []
    else
      var last := requests[|requests| - 1];
      RequestsFor(requests[..|requests| - 1], id) + if last.messageID == id then [last] else []
  }

  // Text as it is, JSON when it decodes, and nothing else.
  function Expected(env: Env, id: string, row: Row): seq<Request> {
    if !IsMeant(env, id, row) then []
    else if IsText(row) then [Text(row.peer, row.plaintext, id, id)]
    else if row.originalType == "json" && env.decode(row.plaintext).Ok?
    then [Json(row.peer, env.decode(row.plaintext).value, id, id)]
    else []
  }

  function FailedRow(row: Row, code: string, hint: string, note: Metadata, now: int): Row {
    row.(status := Failed, errorCode := Some(code), retryHint := Some(hint), metadata := Some(note), updated := now)
  }

  // reply is the client's answer to the row's request, session the one it holds afterwards.
  ghost predicate IsSent(env: Env, id: string, row: Row, reply: Reply, session: string, after: Row)
    requires reply.Accepted?
  {
    var given := if reply.messageID == "" then id else reply.messageID;
    after == row.(
      status := Sent, attempts := row.attempts + 1, lastAttempt := Some(env.now), updated := env.now,
      sentMsgID := if TrimSpace(given) == "" then row.sentMsgID else Some(TrimSpace(given)),
      session := if TrimSpace(session) == "" then row.session else Some(TrimSpace(session)),
      metadata := Some(Delivery(row.peer, reply.operationID, reply.state)),
      errorCode := None, retryHint := None, failedMsgID := None, failedSeq := None)
  }

  // k is the number of the row's request, if it makes one.
  ghost predicate IsOutcome(s: Session, id: string, row: Row, k: nat, after: Row) {
    if !IsMeant(s.env, id, row) then after == row
    else if Expected(s.env, id, row) != [] then
      match s.script(k)
      case Accepted(_, _, _, _) => IsSent(s.env, id, row, s.script(k), s.env.session(k), after)
      case Refused(detail) => after == FailedRow(row, "send_failed", "retry", Detail(detail), s.env.now)
    else if row.originalType == "json" then
      s.env.decode(row.plaintext).Err?
      && after == FailedRow(row, "invalid_payload", "drop", Detail(s.env.decode(row.plaintext).error), s.env.now)
    else after == FailedRow(row, "unsupported_original_type", "drop", UnsupportedType(row.originalType), s.env.now)
  }

  // What is queued under one identity and credential is within reach of every command of the same identity, and,
  // where the command has none, of every command of the same credential.
  lemma NewRowIsInScope(row: Row, did: string, credential: string, peer: string, session: string,
                        originalType: string, plaintext: string, now: int, caller: string, theirs: string)
    requires IsNewRow(row, did, credential, peer, session, originalType, plaintext, now)
    ensures InScope(row, ScopeOf(caller, theirs))
      <==> if TrimSpace(caller) != "" then TrimSpace(caller) == TrimSpace(did)
           else TrimSpace(theirs) == TrimSpace(credential)
  {
    hide TrimSpace;
  }

  predicate IsQueued(rows: map<string, Row>, scope: Scope, id: string) {
    id in rows && InScope(rows[id], scope) && rows[id].status == Queued
  }

  // Of two rows of the same age the one that was changed last comes first.
  predicate IsOlder(a: Row, b: Row) {
    a.created < b.created || (a.created == b.created && a.updated >= b.updated)
  }

  // The query always has an answer.
  lemma ListingExists(rows: map<string, Row>, scope: Scope, status: Status) returns (listed: seq<string>)
    ensures IsListing(rows, scope, status, listed)
  {
    var ids := InSomeOrder(set id | id in rows && InScope(rows[id], scope) && rows[id].status == status);
    var latest := (a: string, b: string) => Changed(rows, a) >= Changed(rows, b);
    listed := StableSort(ids, latest);
    SortSorts(ids, latest);
    SortKeepsElements(ids, latest);
    SortPermutes(ids, latest);
    PermutedDistinct(ids, listed);
    assert forall id | id in listed :: id in ids && id in rows;
    forall i, j | 0 <= i < j < |listed| ensures rows[listed[i]].updated >= rows[listed[j]].updated {
      assert listed[i] in listed && listed[j] in listed && latest(listed[i], listed[j]);
    }
  }

  lemma {:induction false} InSomeOrder(ids: set<string>) returns (order: seq<string>)
    ensures forall id :: id in order <==> id in ids
    ensures forall i, j | 0 <= i < j < |order| :: order[i] != order[j]
    decreases |ids|
  {
    order := [];
    if id :| id in ids {
      var rest := InSomeOrder(ids - {id});
      order := [id] + rest;
    }
  }

  // One flush hands the client the expected requests of the queued rows, all of them and nothing else, oldest
  // row first and each once.
  lemma FlushSendsTheQueue(env: Env, rows: map<string, Row>, scope: Scope, listed: seq<string>)
    requires IsListing(rows, scope, Queued, listed)
    ensures var items := FlushItems(env, rows, listed);
      var requests := Requests(items, |items|);
      && (forall j | 0 <= j < |requests| ::
            && IsQueued(rows, scope, requests[j].messageID)
            && Expected(env, requests[j].messageID, rows[requests[j].messageID]) == [requests[j]])
      && (forall i, j | 0 <= i < j < |requests| ::
            && requests[i].messageID != requests[j].messageID
            && IsOlder(rows[requests[i].messageID], rows[requests[j].messageID]))
      && (forall id | IsQueued(rows, scope, id) && Expected(env, id, rows[id]) != [] ::
            exists j :: 0 <= j < |requests| && requests[j].messageID == id)
  {
    hide Plan, Requests, Sends, Expected, FlushItems, RequestFor, RequestAt, InScope, IsSend;
    ListedRow(rows, scope, listed, "");
    var items := FlushItems(env, rows, listed);
    var sends, requests := Sends(items, |items|), Requests(items, |items|);
    FlushSendsItems(env, rows, scope, listed);
    forall j | 0 <= j < |requests|
      ensures IsQueued(rows, scope, requests[j].messageID) && requests[j].messageID == sends[j].id
      ensures rows[requests[j].messageID] == sends[j].row
      ensures Expected(env, requests[j].messageID, rows[requests[j].messageID]) == [requests[j]]
    {
      assert sends[j] in sends;
      SendIsExpected(env, sends[j].id, sends[j].row);
    }
    forall id | IsQueued(rows, scope, id) && Expected(env, id, rows[id]) != []
      ensures exists j :: 0 <= j < |requests| && requests[j].messageID == id
    {
      SendIsExpected(env, id, rows[id]);
      var mine := Item(id, rows[id], Plan(env, id, rows[id]));
      assert mine in sends;
      var j :| 0 <= j < |sends| && sends[j] == mine;
      assert requests[j].messageID == id;
    }
  }

  lemma SendIsExpected(env: Env, id: string, row: Row)
    ensures Expected(env, id, row) != [] <==> IsSend(Plan(env, id, row))
    ensures IsSend(Plan(env, id, row)) ==>
      Expected(env, id, row) == [RequestFor(Plan(env, id, row), id, row)]
      && RequestFor(Plan(env, id, row), id, row).messageID == id
  {
    hide Plan, Expected;
    RequestIsExpected(env, id, row);
  }

  // Item p of the queue is handled: request k is its own, if it makes one, and the row is what the answer makes
  // of it, unless it cannot be written.
  ghost predicate IsHandled(s: Session, items: seq<Item>, requests: seq<Request>, row: Row, after: Row, p: nat, k: nat)
  {
    && p < |items| && k <= |requests|
    && (Expected(s.env, items[p].id, row) != [] ==> k < |requests| && requests[k].messageID == items[p].id)
    && if s.env.writeFails(p) then after == row else IsOutcome(s, items[p].id, row, s.answered + k, after)
  }

  // For every listed row the client is handed exactly the expected request, and the row is what the answer
  // makes of it, unless it cannot be written. Nothing is handed over for any other id.
  lemma FlushByFields(rows: map<string, Row>, s: Session, listed: seq<string>, id: string)
    requires IsListing(rows, ScopeOf(s.env.did, s.env.credential), Queued, listed) && !Blank(s.env.did) && id in rows
    ensures var items := FlushItems(s.env, rows, listed);
      var requests, after := Requests(items, |items|), Run(rows, FlushOps(s, items, |items|));
      && id in after
      && RequestsFor(requests, id) == (if id in listed then Expected(s.env, id, rows[id]) else [])
      && (id !in listed ==> after[id] == rows[id])
      && (id in listed ==> exists p: nat, k: nat :: IsHandled(s, items, requests, rows[id], after[id], p, k)
                                                     && items[p].id == id)
  {
    hide Plan, TrimSpace, Run, FlushOps, Requests, RequestsFor, Expected, IsOutcome, OpAt, RowAfterOp, FlushItems,
      IsListing, InScope, ScopeOf, RequestAt;
    ListedRow(rows, ScopeOf(s.env.did, s.env.credential), listed, id);
    var items := FlushItems(s.env, rows, listed);
    FlushItemsSpec(s.env, rows, ScopeOf(s.env.did, s.env.credential), listed);
    RowAfterItems(rows, s, items, |items|, id);
    RequestsOfRow(items, |items|, id);
    if id in listed {
      var mine := Item(id, rows[id], Plan(s.env, id, rows[id]));
      assert mine in items;
      var p: nat :| p < |items| && items[p] == mine;
      var k := |Requests(items, p)|;
      RequestIsExpected(s.env, id, rows[id]);
      RequestHasPlace(items, p, |items|);
      OutcomeByFields(s, items, p, rows[id]);
      assert Run(rows, FlushOps(s, items, |items|))[id] == RowAfterOp(rows[id], OpAt(s, items, p));
      assert IsHandled(s, items, Requests(items, |items|), rows[id], Run(rows, FlushOps(s, items, |items|))[id], p, k);
    } else {
      forall i | 0 <= i < |items| ensures items[i].id != id {
        assert items[i] in items;
      }
    }
  }

  lemma ListedRow(rows: map<string, Row>, scope: Scope, listed: seq<string>, id: string)
    requires IsListing(rows, scope, Queued, listed)
    ensures id in listed <==> id in rows && InScope(rows[id], scope) && rows[id].status == Queued
    ensures forall i | i in listed :: i in rows
  {}

  // The requests with an id are those of the items with that id.
  lemma {:induction false} RequestsOfRow(items: seq<Item>, n: nat, id: string)
    requires n <= |items| && forall i, j | 0 <= i < j < |items| :: items[i].id != items[j].id
    ensures (forall i | 0 <= i < n :: items[i].id != id) ==> RequestsFor(Requests(items, n), id) == []
    ensures forall p | 0 <= p < n && items[p].id == id :: RequestsFor(Requests(items, n), id) == RequestAt(items[p])
  {
    hide RequestAt;
    if n > 0 {
      var before, item := Requests(items, n - 1), items[n - 1];
      RequestsOfRow(items, n - 1, id);
      RequestAtItem(item);
      OneMoreRequest(before, RequestAt(item), id);
    }
  }

  lemma RequestAtItem(item: Item)
    ensures |RequestAt(item)| <= 1 && (RequestAt(item) != [] ==> RequestAt(item)[0].messageID == item.id)
  {}

  lemma OneMoreRequest(before: seq<Request>, more: seq<Request>, id: string)
    requires |more| <= 1
    ensures RequestsFor(before + more, id)
      == RequestsFor(before, id) + if more != [] && more[0].messageID == id then more else []
  {
    if more == [] {
      assert before + more == before;
    } else {
      assert (before + more)[..|before|] == before && more == [more[0]];
    }
  }

  lemma {:induction false} RequestHasPlace(items: seq<Item>, p: nat, n: nat)
    requires p < n <= |items|
    ensures |Requests(items, p)| <= |Requests(items, n)|
    ensures RequestAt(items[p]) != [] ==>
      |Requests(items, p)| < |Requests(items, n)| && Requests(items, n)[|Requests(items, p)|] == RequestAt(items[p])[0]
  {
    hide RequestAt;
    RequestAtItem(items[p]);
    if n > p + 1 {
      RequestHasPlace(items, p, n - 1);
    }
  }

  lemma RequestIsExpected(env: Env, id: string, row: Row)
    ensures RequestAt(Item(id, row, Plan(env, id, row))) == Expected(env, id, row)
    ensures Expected(env, id, row) != [] ==> Expected(env, id, row)[0].messageID == id
  {
    hide TrimSpace;
    KindOfRow(row);
  }

  lemma KindOfRow(row: Row)
    ensures var kind := DefaultString(row.originalType, "text");
      (kind == "text" || kind == "" <==> IsText(row)) && (!IsText(row) ==> kind == row.originalType)
      && (kind == "json" <==> !IsText(row) && row.originalType == "json")
  {
    hide TrimSpace;
    EmptyIsBlank();
  }

  lemma OutcomeByFields(s: Session, items: seq<Item>, p: nat, row: Row)
    requires p < |items| && items[p] == Item(items[p].id, row, Plan(s.env, items[p].id, row))
    requires InScope(row, ScopeOf(s.env.did, s.env.credential)) && !Blank(s.env.did)
    ensures var after := RowAfterOp(row, OpAt(s, items, p));
      if s.env.writeFails(p) then after == row
      else IsOutcome(s, items[p].id, row, s.answered + |Requests(items, p)|, after)
  {
    hide TrimSpace, OpFor, Updated, IsOutcome, Plan, RequestAt, Expected, ScopeOf;
    var k, action := s.answered + |Requests(items, p)|, items[p].action;
    if action.Skip? {
      SkippedRow(s, items[p].id, row, k);
    } else if IsSend(action) {
      SentRow(s, items[p].id, row, k);
    } else {
      RejectedRow(s, items[p].id, row, k);
    }
  }

  lemma SkippedRow(s: Session, id: string, row: Row, k: nat)
    requires Plan(s.env, id, row).Skip?
    ensures IsOutcome(s, id, row, k, row)
  {
    hide TrimSpace;
  }

  lemma SentRow(s: Session, id: string, row: Row, k: nat)
    requires IsSend(Plan(s.env, id, row)) && InScope(row, ScopeOf(s.env.did, s.env.credential)) && !Blank(s.env.did)
    ensures var op := OpFor(s.env, Plan(s.env, id, row), id, row, s.script(k), k);
      Hits(op, row) && IsOutcome(s, id, row, k, Updated(op, row))
  {
    hide TrimSpace, Expected, Plan;
    SendIsExpected(s.env, id, row);
    MeantIfSent(s.env, id, row);
  }

  lemma MeantIfSent(env: Env, id: string, row: Row)
    requires !Plan(env, id, row).Skip?
    ensures IsMeant(env, id, row)
  {
    hide TrimSpace;
  }

  lemma RejectedRow(s: Session, id: string, row: Row, k: nat)
    requires Plan(s.env, id, row).Reject? && InScope(row, ScopeOf(s.env.did, s.env.credential))
    ensures var op := OpFor(s.env, Plan(s.env, id, row), id, row, s.script(k), k);
      Hits(op, row) && IsOutcome(s, id, row, k, Updated(op, row))
  {
    hide TrimSpace;
    KindOfRow(row);
  }

  // ---- The message kept for a sent row ----

  // The conversation of two DIDs, whichever of them it is opened from, or with nobody.
  ghost predicate IsThreadOf(thread: string, one: string, other: string) {
    if other == "" then thread == "dm:" + one + ":unknown"
    else exists a, b | a in {one, other} && b in {one, other} && {a, b} == {one, other} ::
      !Less(b, a) && thread == "dm:" + a + ":" + b
  }

  // It is kept under the id it was sent with, as an outgoing message of the caller to the peer, with the plaintext
  // of the row, read and encrypted, and not typed as ciphertext, so that no later poll of the same message
  // replaces its text.
  lemma SentMessageIsKept(env: Env, id: string, row: Row, reply: Reply, table: map<Messages.Key, Messages.Row>)
    requires reply.Accepted? && Messages.CanStore(SentMessage(env, id, row, reply))
    ensures var after := Messages.StoreOne(table, SentMessage(env, id, row, reply), env.nowText, false);
      var k := Messages.Key(if reply.messageID == "" then id else reply.messageID, TrimSpace(env.did));
      && k in after && after == table[k := after[k]]
      && after[k].content == row.plaintext && after[k].isRead && after[k].isE2EE && !Messages.Wire(after[k])
      && after[k].contentType == KeptType(row)
      && after[k].envelope.direction == 1 && Shows(after[k].envelope.senderDID, env.did)
      && Shows(after[k].envelope.receiverDID, row.peer)
      && after[k].envelope.credentialName == TrimSpace(env.credential)
      && IsThreadOf(after[k].envelope.threadID, TrimSpace(env.did), TrimSpace(row.peer))
      && (TrimSpace(reply.acceptedAt) != "" ==> after[k].sentAt == Some(TrimSpace(reply.acceptedAt)))
      && after[k].storedAt == (if k in table then table[k].storedAt else env.nowText)
      && after[k].envelope.title.None? && after[k].envelope.groupID.None? && after[k].envelope.groupDID.None?
      && (k !in table ==> after[k].serverSeq.None? && after[k].senderName.None?)
      && var note := TrimSpace(env.encode(Delivery(row.peer, reply.operationID, reply.state)));
        note != "" ==> after[k].metadata == Some(note)
  {
    hide TrimSpace, SentMessage, Messages.Merge, Messages.IsWireType, Messages.WriteOf, IsThreadOf, KeptType;
    SentWrite(env, id, row, reply);
    Merged(table, Messages.WriteOf(SentMessage(env, id, row, reply), env.nowText));
  }

  lemma SentWrite(env: Env, id: string, row: Row, reply: Reply)
    requires reply.Accepted?
    ensures var w := Messages.WriteOf(SentMessage(env, id, row, reply), env.nowText);
      && w.key == Messages.Key(if reply.messageID == "" then id else reply.messageID, TrimSpace(env.did))
      && w.row.content == row.plaintext && w.row.isRead && w.row.isE2EE && !Messages.Wire(w.row)
      && w.row.contentType == KeptType(row)
      && w.row.envelope.direction == 1 && Shows(w.row.envelope.senderDID, env.did)
      && Shows(w.row.envelope.receiverDID, row.peer)
      && w.row.envelope.credentialName == TrimSpace(env.credential)
      && IsThreadOf(w.row.envelope.threadID, TrimSpace(env.did), TrimSpace(row.peer))
      && w.row.sentAt == (if TrimSpace(reply.acceptedAt) == "" then None else Some(TrimSpace(reply.acceptedAt)))
      && w.row.storedAt == env.nowText && w.row.serverSeq.None? && w.row.senderName.None?
      && w.row.envelope.title.None? && w.row.envelope.groupID.None? && w.row.envelope.groupDID.None?
      && var note := TrimSpace(env.encode(Delivery(row.peer, reply.operationID, reply.state)));
        w.row.metadata == if note == "" then None else Some(note)
  {
    hide TrimSpace, ThreadID, ContentTypeFor, IsThreadOf, KeptType, Messages.IsWireType;
    EmptyIsBlank();
    ThreadIsOf(env.did, row.peer);
    KeptIsNoCiphertext(row);
  }

  // Attachments and events keep their type, and anything else is text.
  function KeptType(row: Row): string {
    var kind := Lower(TrimSpace(row.originalType));
    if kind == "attachment_manifest" then "application/anp-attachment-manifest+json"
    else if kind == "event" then "application/json"
    else "text/plain"
  }

  lemma KeptIsNoCiphertext(row: Row)
    ensures KeptType(row) == ContentTypeFor(DefaultString(row.originalType, "text"))
    ensures DefaultString(KeptType(row), "text") == KeptType(row)
    ensures !Messages.IsWireType(KeptType(row))
  {
    hide TrimSpace, Lower;
    TextIsText();
    TrimmedUnchanged("application/anp-attachment-manifest+json");
    TrimmedUnchanged("application/json");
    TrimmedUnchanged("text/plain");
  }

  lemma TextIsText()
    ensures Lower(TrimSpace("text")) == "text" && Lower("") == ""
  {
    TrimmedUnchanged("text");
    LowerOfLower("text");
  }

  lemma ThreadIsOf(mine: string, peer: string)
    ensures IsThreadOf(ThreadID(mine, peer), TrimSpace(mine), TrimSpace(peer))
  {
    hide TrimSpace, Less;
    var a, b := TrimSpace(mine), TrimSpace(peer);
    LessIsTotal(a, b);
    assert {a, b} == {b, a};
  }

  // A readable record gives the row its text, and the envelope is always that of the last record.
  lemma Merged(table: map<Messages.Key, Messages.Row>, w: Messages.Write)
    requires !Messages.Wire(w.row)
    ensures var after := Messages.Upsert(table, w)[w.key];
      && after.envelope == w.row.envelope && after.content == w.row.content && after.contentType == w.row.contentType
      && (w.row.isRead ==> after.isRead) && (w.row.isE2EE ==> after.isE2EE)
      && (w.row.sentAt.Some? ==> after.sentAt == w.row.sentAt)
      && (w.row.metadata.Some? ==> after.metadata == w.row.metadata)
      && (w.key !in table ==> after == w.row)
      && after.storedAt == if w.key in table then table[w.key].storedAt else w.row.storedAt
  {}
}
