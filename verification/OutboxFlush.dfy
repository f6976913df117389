// internal/message/secure_control.go and secure_commands.go: the commands that drive the outbox.
// The end-to-end client is an oracle: script(k) is its answer to the k-th request it is given.
module OutboxFlush {
  import opened Wrappers
  import opened Text
  import opened Sorting
  import opened Outbox
  import Messages = MessageStore

  datatype Reply = Accepted(messageID: string, operationID: string, state: string, acceptedAt: string)
    | Refused(detail: string)

  datatype Request =
    | Text(peer: string, text: string, messageID: string, operationID: string)
    | Json(peer: string, payload: string, messageID: string, operationID: string)

  class Client {
    const script: nat -> Reply
    var requests: seq<Request>

    constructor (script: nat -> Reply)
      ensures this.script == script && requests == []
    {
      this.script, requests := script, [];
    }

    method Send(request: Request) returns (reply: Reply)
      modifies this
      ensures requests == old(requests) + [request]
      ensures reply == script(|old(requests)|)
    {
      reply := script(|requests|);
      requests := requests + [request];
    }
  }

  // Everything a flush is given. decode parses a JSON object, encode writes one; session(k) is the session the
  // client holds after request k; writeFails(i) and storeFails(i) are database errors for the i-th row.
  datatype Env = Env(
    did: string, credential: string, peer: string, decode: string -> Result<string, string>,
    encode: Metadata -> string, session: nat -> string, writeFails: nat -> bool, storeFails: nat -> bool, now: int,
    nowText: string)

  datatype Action = Skip | SendText | SendJson(payload: string) | Reject(code: string, note: Metadata)

  function Plan(env: Env, id: string, row: Row): Action {
    if !Blank(env.peer) && row.peer != TrimSpace(env.peer) then Skip
    else if id == "" || row.peer == "" then Skip
    else
      var kind := DefaultString(row.originalType, "text");
      if kind == "text" || kind == "" then SendText
      else if kind == "json" then
        match env.decode(row.plaintext)
        case Ok(payload) => SendJson(payload)
        case Err(detail) => Reject("invalid_payload", Detail(detail))
      else Reject("unsupported_original_type", UnsupportedType(kind))
  }

  predicate IsSend(action: Action) {
    action.SendText? || action.SendJson?
  }

  function RequestFor(action: Action, id: string, row: Row): Request
    requires IsSend(action)
  {
    match action
    case SendText => Text(row.peer, row.plaintext, id, id)
    case SendJson(payload) => Json(row.peer, payload, id, id)
  }

  // The row operation for a row that is not skipped; k is the number of its request.
  function OpFor(env: Env, action: Action, id: string, row: Row, reply: Reply, k: nat): Op
    requires !action.Skip?
  {
    var scope := ScopeOf(env.did, env.credential);
    match action
    case Reject(code, note) => MarkFailed(id, scope, code, Some("drop"), None, None, Some(note), env.now)
    case _ =>
      match reply
      case Refused(detail) => MarkFailed(id, scope, "send_failed", Some("retry"), None, None, Some(Detail(detail)),
        env.now)
      case Accepted(messageID, operationID, state, _) =>
        MarkSent(id, TrimSpace(env.did), Optional(env.session(k)), Optional(SentID(messageID, id)), None,
                 Some(Delivery(row.peer, operationID, state)), env.now)
  }

  function SentID(messageID: string, id: string): string {
    if messageID == "" then id else messageID
  }

  // contentTypeForMessageType
  function ContentTypeFor(originalType: string): string {
    var t := Lower(TrimSpace(originalType));
    if t == "attachment_manifest" then "application/anp-attachment-manifest+json"
    else if t == "event" then "application/json"
    else "text/plain"
  }

  // The message stored for a row that has been sent. thread is MakeThreadID of the two DIDs; the
  // metadata is the JSON of the delivery.
  function SentMessage(env: Env, id: string, row: Row, reply: Reply): Messages.Record
    requires reply.Accepted?
  {
    Messages.Record(
      SentID(reply.messageID, id), env.did, ThreadID(env.did, row.peer), 1, env.did, row.peer, "", "",
      ContentTypeFor(DefaultString(row.originalType, "text")), row.plaintext, "", None, reply.acceptedAt, "", true,
        true, "",
      env.encode(Delivery(row.peer, reply.operationID, reply.state)), env.credential)
  }

  // MakeThreadID for a direct conversation.
  function ThreadID(mine: string, peer: string): string {
    var a, b := TrimSpace(mine), TrimSpace(peer);
    if b == "" then "dm:" + a + ":unknown"
    else if Less(b, a) then "dm:" + b + ":" + a
    else "dm:" + a + ":" + b
  }

  // ---- What a flush does, row by row ----

  // A listed row and what is to be done with it.
  datatype Item = Item(id: string, row: Row, action: Action)

  function Items(env: Env, rows: map<string, Row>, ids: seq<string>): (items: seq<Item>)
    requires forall id | id in ids :: id in rows
    ensures |items| == |ids|
    ensures forall i | 0 <= i < |ids| :: items[i] == Item(ids[i], rows[ids[i]], Plan(env, ids[i], rows[ids[i]]))
  {
    seq(|ids|, i requires 0 <= i < |ids| => Item(ids[i], rows[ids[i]], Plan(env, ids[i], rows[ids[i]])))
  }

  function RequestAt(item: Item): seq<Request> {
    if IsSend(item.action) then [RequestFor(item.action, item.id, item.row)] else []
  }

  // The requests the client is handed for the first n items.
  function Requests(items: seq<Item>, n: nat): seq<Request>
    requires n <= |items|
  {
    if n == 0 then [] else Requests(items, n - 1) + RequestAt(items[n - 1])
  }

  // The run a flush makes: the client's script, and how many requests it has answered before.
  datatype Session = Session(env: Env, script: nat -> Reply, answered: nat)

  // The reply to item i, if it is sent.
  function ReplyAt(s: Session, items: seq<Item>, i: nat): Reply
    requires i < |items|
  {
    s.script(s.answered + |Requests(items, i)|)
  }

  // The operation of item i, if there is one: nothing for a skipped row or a failed write.
  function OpAt(s: Session, items: seq<Item>, i: nat): Option<Op>
    requires i < |items|
  {
    if items[i].action.Skip? || s.env.writeFails(i) then None
    else Some(OpFor(s.env, items[i].action, items[i].id, items[i].row, ReplyAt(s, items, i),
      s.answered + |Requests(items, i)|))
  }

  function FlushOps(s: Session, items: seq<Item>, n: nat): seq<Op>
    requires n <= |items|
  {
    if n == 0 then []
    else FlushOps(s, items, n - 1) + match OpAt(s, items, n - 1) case Some(op) => [op] case None => []
  }

  // The message table once the first n rows have been dealt with: each row marked sent has its message stored.
  function MessagesAfter(s: Session, items: seq<Item>, n: nat, table: map<Messages.Key, Messages.Row>)
    : map<Messages.Key, Messages.Row>
    requires n <= |items|
  {
    if n == 0 then table else MessageStep(s, items, n - 1, MessagesAfter(s, items, n - 1, table))
  }

  function MessageStep(s: Session, items: seq<Item>, i: nat, table: map<Messages.Key, Messages.Row>)
    : map<Messages.Key, Messages.Row>
    requires i < |items|
  {
    if IsSend(items[i].action) && ReplyAt(s, items, i).Accepted? && !s.env.writeFails(i)
    then Messages.StoreOne(table, SentMessage(s.env, items[i].id, items[i].row, ReplyAt(s, items, i)), s.env.nowText,
      s.env.storeFails(i))
    else table
  }

  function Created(rows: map<string, Row>, id: string): int {
    if id in rows then rows[id].created else 0
  }

  function ByCreated(rows: map<string, Row>): (string, string) -> bool {
    (a: string, b: string) => Created(rows, a) <= Created(rows, b)
  }

  function FlushOrder(rows: map<string, Row>, listed: seq<string>): seq<string> {
    StableSort(listed, ByCreated(rows))
  }

  // listed is an answer to: SELECT * FROM e2ee_outbox WHERE <scope> AND local_status = ? ORDER BY updated_at DESC
  ghost predicate IsListing(rows: map<string, Row>, scope: Scope, status: Status, listed: seq<string>) {
    && (forall id :: id in listed <==> id in rows && InScope(rows[id], scope) && rows[id].status == status)
    && (forall i, j | 0 <= i < j < |listed| :: listed[i] != listed[j])
    && (forall i, j | 0 <= i < j < |listed| :: rows[listed[i]].updated >= rows[listed[j]].updated)
  }

  lemma ListingOrder(rows: map<string, Row>, listed: seq<string>)
    requires forall id | id in listed :: id in rows
    ensures forall id | id in FlushOrder(rows, listed) :: id in rows
  {
    SortKeepsElements(listed, ByCreated(rows));
  }

  function FlushItems(env: Env, rows: map<string, Row>, listed: seq<string>): seq<Item>
    requires forall id | id in listed :: id in rows
  {
    ListingOrder(rows, listed);
    Items(env, rows, FlushOrder(rows, listed))
  }

  function ApplyOption(rows: map<string, Row>, op: Option<Op>): map<string, Row> {
    match op case Some(o) => Apply(rows, o) case None => rows
  }

  class SecureOutbox {
    var rows: map<string, Row>
    // The peers of the sessions kept in the identity's session store, by session id.
    var sessions: map<string, string>

    constructor ()
      ensures rows == map[] && sessions == map[]
    {
      rows, sessions := map[], map[];
    }

    method Execute(op: Op, fails: bool)
      modifies this`rows
      ensures rows == if fails then old(rows) else Apply(old(rows), op)
    {
      if !fails {
        rows := Apply(rows, op);
      }
    }

    // queueSecureOutboxRecord; id is the generated id. The new row has no history.
    method Queue(id: string, did: string, credential: string, peer: string, session: string, originalType: string,
                 plaintext: string, now: int, fails: bool) returns (ok: bool)
      modifies this`rows
      ensures ok == (!fails && id !in old(rows))
      ensures !ok ==> rows == old(rows)
      ensures ok ==>
        && id in rows && rows == old(rows)[id := rows[id]]
        && IsNewRow(rows[id], did, credential, peer, session, originalType, plaintext, now)
    {
      hide TrimSpace;
      ok := !fails && id !in rows;
      Execute(Insert(id, QueuedRow(did, credential, peer, session, originalType, plaintext, now)), fails);
    }

    // FlushQueuedSecureOutbox. listed is what the query returns; ready is false when the database or
    // the client cannot be opened.
    method Flush(client: Client, messages: Messages.MessageTable, env: Env, listed: seq<string>, ready: bool)
      requires IsListing(rows, ScopeOf(env.did, env.credential), Queued, listed)
      modifies this`rows, client, messages
      ensures !ready ==>
        rows == old(rows) && client.requests == old(client.requests) && messages.rows == old(messages.rows)
      ensures ready ==>
        var items := FlushItems(env, old(rows), listed);
        var s := Session(env, client.script, |old(client.requests)|);
        && rows == Run(old(rows), FlushOps(s, items, |items|))
        && messages.rows == MessagesAfter(s, items, |items|, old(messages.rows))
        && client.requests == old(client.requests) + Requests(items, |items|)
    {
      if !ready {
        return;
      }
      Deliver(client, messages, env, FlushItems(env, rows, listed));
    }

    method Deliver(client: Client, messages: Messages.MessageTable, env: Env, items: seq<Item>)
      modifies this`rows, client, messages
      ensures var s := Session(env, client.script, |old(client.requests)|);
        && rows == Run(old(rows), FlushOps(s, items, |items|))
        && messages.rows == MessagesAfter(s, items, |items|, old(messages.rows))
        && client.requests == old(client.requests) + Requests(items, |items|)
    {
      hide OpAt, FlushOps, Run, MessageStep, MessagesAfter, ApplyOption, RequestAt, Requests;
      ghost var s := Session(env, client.script, |client.requests|);
      NothingDone(rows, s, items, messages.rows);
      for i := 0 to |items|
        invariant rows == Run(old(rows), FlushOps(s, items, i))
        invariant messages.rows == MessagesAfter(s, items, i, old(messages.rows))
        invariant client.requests == old(client.requests) + Requests(items, i)
      {
        FlushRow(client, messages, env, items, i, s);
        OpsStep(old(rows), s, items, i);
        StepBehind(s, items, i, old(messages.rows));
      }
    }

    // The body of the loop.
    method FlushRow(client: Client, messages: Messages.MessageTable, env: Env, items: seq<Item>, i: nat,
                    ghost s: Session)
      requires i < |items| && s.env == env && s.script == client.script
      requires |client.requests| == s.answered + |Requests(items, i)|
      modifies this`rows, client, messages
      ensures rows == ApplyOption(old(rows), OpAt(s, items, i))
      ensures messages.rows == MessageStep(s, items, i, old(messages.rows))
      ensures client.requests == old(client.requests) + RequestAt(items[i])
    {
      hide OpFor, SentMessage, Messages.StoreOne, Apply, RequestFor;
      if IsSend(items[i].action) {
        SendRow(client, messages, env, items[i], i);
      } else if items[i].action.Reject? {
        RejectRow(env, items[i], i, client.script(|client.requests|), |client.requests|);
      }
    }

    // A rejected row makes no request: whatever the client would have answered does not matter.
    method RejectRow(env: Env, item: Item, i: nat, ghost unasked: Reply, ghost k: nat)
      requires item.action.Reject?
      modifies this`rows
      ensures rows == if env.writeFails(i) then old(rows)
        else Apply(old(rows), OpFor(env, item.action, item.id, item.row, unasked, k))
    {
      Execute(OpFor(env, item.action, item.id, item.row, Refused(""), 0), env.writeFails(i));
    }

    method SendRow(client: Client, messages: Messages.MessageTable, env: Env, item: Item, i: nat)
      requires IsSend(item.action)
      modifies this`rows, client, messages
      ensures client.requests == old(client.requests) + [RequestFor(item.action, item.id, item.row)]
      ensures var k := |old(client.requests)|;
        rows == if env.writeFails(i) then old(rows)
                else Apply(old(rows), OpFor(env, item.action, item.id, item.row, client.script(k), k))
      ensures var reply := client.script(|old(client.requests)|);
        messages.rows ==
          if reply.Accepted? && !env.writeFails(i)
          then Messages.StoreOne(old(messages.rows), SentMessage(env, item.id, item.row, reply), env.nowText,
            env.storeFails(i))
          else old(messages.rows)
    {
      var k := |client.requests|;
      var reply := client.Send(RequestFor(item.action, item.id, item.row));
      Execute(OpFor(env, item.action, item.id, item.row, reply, k), env.writeFails(i));
      if reply.Accepted? && !env.writeFails(i) {
        var stored := messages.StoreMessage(SentMessage(env, item.id, item.row, reply), env.nowText, env.storeFails(i));
      }
    }

    // SecureDrop
    method Drop(id: string, did: string, credential: string, now: int, fails: bool) returns (ok: bool)
      modifies this`rows
      ensures ok == (id in old(rows) && InScope(old(rows)[id], ScopeOf(did, credential)) && !fails)
      ensures rows == if ok then Apply(old(rows), SetStatus(id, ScopeOf(did, credential), Dropped, now)) else old(rows)
    {
      if id !in rows || !InScope(rows[id], ScopeOf(did, credential)) {
        return false;
      }
      Execute(SetStatus(id, ScopeOf(did, credential), Dropped, now), fails);
      ok := !fails;
    }

    // The first half of SecureRetry.
    method Requeue(id: string, did: string, credential: string, now: int, fails: bool) returns (peer: Option<string>)
      modifies this`rows
      ensures peer.Some? <==> id in old(rows) && InScope(old(rows)[id], ScopeOf(did, credential)) && !fails
      ensures peer.Some? ==> peer.value == old(rows)[id].peer
      ensures rows == if peer.Some? then Apply(old(rows), SetStatus(id, ScopeOf(did, credential), Queued, now))
        else old(rows)
    {
      if id !in rows || !InScope(rows[id], ScopeOf(did, credential)) {
        return None;
      }
      var found := rows[id].peer;
      Execute(SetStatus(id, ScopeOf(did, credential), Queued, now), fails);
      peer := if fails then None else Some(found);
    }

    // SecureRetry: the row is queued again and the queue for its peer is flushed. listed is what the
    // query of the flush returns, after the row has been queued.
    method Retry(client: Client, messages: Messages.MessageTable, env: Env, id: string, listed: seq<string>,
                 ready: bool, fails: bool) returns (ok: bool)
      requires CanRequeue(rows, env, id) && !fails
        ==> IsListing(Requeued(rows, env, id), ScopeOf(env.did, env.credential), Queued, listed)
      modifies this`rows, client, messages
      ensures ok == (CanRequeue(old(rows), env, id) && !fails)
      ensures !ok ==> rows == old(rows)
      ensures !ok || !ready ==> client.requests == old(client.requests) && messages.rows == old(messages.rows)
      ensures ok && !ready ==> rows == Requeued(old(rows), env, id)
      ensures ok && ready ==>
        var queued, retry := Requeued(old(rows), env, id), env.(peer := old(rows)[id].peer);
        var items := FlushItems(retry, queued, listed);
        var s := Session(retry, client.script, |old(client.requests)|);
        && rows == Run(queued, FlushOps(s, items, |items|))
        && messages.rows == MessagesAfter(s, items, |items|, old(messages.rows))
        && client.requests == old(client.requests) + Requests(items, |items|)
    {
      hide Apply, FlushItems, Run, FlushOps, MessagesAfter, Requests, IsListing;
      var peer := Requeue(id, env.did, env.credential, env.now, fails);
      if peer.None? {
        return false;
      }
      Flush(client, messages, env.(peer := peer.value), listed, ready);
      ok := true;
    }

    // resetSecurePeerState: the peer's session is deleted and its failed rows are queued again. found is
    // the session the store finds for the peer; reached says whether the database could be opened, and
    // failsAt is the update that fails, if any; the rows before it stay queued.
    method Repair(did: string, credential: string, peer: string, found: Option<string>, deleteFails: bool,
                  reached: bool, listed: seq<string>, now: int, failsAt: Option<nat>)
      returns (ok: bool, resetCount: nat)
      requires IsListing(rows, ScopeOf(did, credential), Failed, listed)
      requires match found case Some(id) => id in sessions && sessions[id] == peer case None => peer !in sessions.Values
      modifies this
      ensures found.Some? && deleteFails ==> !ok && resetCount == 0 && rows == old(rows) && sessions == old(sessions)
      ensures !(found.Some? && deleteFails) ==>
        sessions == match found case Some(id) => old(sessions) - {id} case None => old(sessions)
      ensures !reached ==> !ok && rows == old(rows)
      ensures var deleted := if found.Some? && !deleteFails then 1 else 0;
        RepairedUpTo(old(rows), rows, ScopeOf(did, credential), peer, listed, now, ok, resetCount - deleted)
    {
      hide Run, RepairOps;
      NoRepairs(rows, ScopeOf(did, credential), peer, listed, now);
      resetCount := 0;
      if found.Some? {
        if deleteFails {
          return false, 0;
        }
        sessions := sessions - {found.value};
        resetCount := 1;
      }
      if !reached {
        return false, resetCount;
      }
      var requeued;
      ok, requeued := RequeueFailed(ScopeOf(did, credential), peer, listed, now, failsAt);
      resetCount := resetCount + requeued;
    }

    method RequeueFailed(scope: Scope, peer: string, listed: seq<string>, now: int, failsAt: Option<nat>)
      returns (ok: bool, requeued: nat)
      requires forall id | id in listed :: id in rows
      modifies this`rows
      ensures RepairedUpTo(old(rows), rows, scope, peer, listed, now, ok, requeued)
    {
      hide Run, Apply;
      var before := rows;
      NoRepairs(rows, scope, peer, listed, now);
      requeued := 0;
      for i := 0 to |listed|
        invariant rows == Run(before, RepairOps(before, scope, peer, listed, i, now))
        invariant requeued == |RepairOps(before, scope, peer, listed, i, now)|
      {
        var id := listed[i];
        assert id in listed;
        ghost var ops := RepairOps(before, scope, peer, listed, i, now);
        assert ops + [] == ops;
        if before[id].peer != peer {
          continue;
        }
        if failsAt == Some(i) {
          return false, requeued;
        }
        RunStep(before, ops, SetStatus(id, scope, Queued, now));
        Execute(SetStatus(id, scope, Queued, now), false);
        requeued := requeued + 1;
      }
      ok := true;
    }
  }

  // The failed rows of the peer among the first n listed have been queued again, all of them on success.
  ghost predicate RepairedUpTo(before: map<string, Row>, after: map<string, Row>, scope: Scope, peer: string,
                               listed: seq<string>, now: int, complete: bool, count: int)
  {
    exists n: nat ::
      && n <= |listed| && (complete ==> n == |listed|)
      && after == Run(before, RepairOps(before, scope, peer, listed, n, now))
      && count == |RepairOps(before, scope, peer, listed, n, now)|
  }

  lemma NoRepairs(rows: map<string, Row>, scope: Scope, peer: string, listed: seq<string>, now: int)
    ensures RepairOps(rows, scope, peer, listed, 0, now) == [] && Run(rows, []) == rows
  {}

  predicate CanRequeue(rows: map<string, Row>, env: Env, id: string) {
    id in rows && InScope(rows[id], ScopeOf(env.did, env.credential))
  }

  function Requeued(rows: map<string, Row>, env: Env, id: string): map<string, Row> {
    Apply(rows, SetStatus(id, ScopeOf(env.did, env.credential), Queued, env.now))
  }

  function QueuedRow(did: string, credential: string, peer: string, session: string, originalType: string,
                     plaintext: string, now: int): Row {
    Row(TrimSpace(did), peer, Optional(session), DefaultString(originalType, "text"), plaintext, Queued, 0, None,
        None, None, None, None, None, Some(PendingConfirmation), None, now, now, TrimSpace(credential))
  }

  ghost predicate IsNewRow(row: Row, did: string, credential: string, peer: string, session: string,
                           originalType: string, plaintext: string, now: int)
  {
    && row.owner == TrimSpace(did) && row.credential == TrimSpace(credential) && row.peer == peer
    && row.session == (if TrimSpace(session) == "" then None else Some(TrimSpace(session)))
    && row.originalType == (if TrimSpace(originalType) == "" then "text" else originalType)
    && row.plaintext == plaintext && row.status == Queued && row.attempts == 0
    && row.sentMsgID.None? && row.sentSeq.None? && row.errorCode.None? && row.retryHint.None?
    && row.failedMsgID.None? && row.failedSeq.None? && row.lastAttempt.None?
    && row.metadata == Some(PendingConfirmation) && row.created == now && row.updated == now
  }

  function RepairOps(rows: map<string, Row>, scope: Scope, peer: string, listed: seq<string>, n: nat, now: int): seq<Op>
    requires n <= |listed|
  {
    if n == 0 then []
    else
      var id := listed[n - 1];
      RepairOps(rows, scope, peer, listed, n - 1, now) +
      if id in rows && rows[id].peer == peer then [SetStatus(id, scope, Queued, now)] else []
  }

  lemma NothingDone(rows: map<string, Row>, s: Session, items: seq<Item>, table: map<Messages.Key, Messages.Row>)
    ensures Run(rows, FlushOps(s, items, 0)) == rows && MessagesAfter(s, items, 0, table) == table
    ensures Requests(items, 0) == []
  {}

  lemma StepBehind(s: Session, items: seq<Item>, i: nat, table: map<Messages.Key, Messages.Row>)
    requires i < |items|
    ensures MessagesAfter(s, items, i + 1, table) == MessageStep(s, items, i, MessagesAfter(s, items, i, table))
    ensures Requests(items, i + 1) == Requests(items, i) + RequestAt(items[i])
  {
    hide MessageStep, RequestAt;
  }

  lemma OpsStep(rows: map<string, Row>, s: Session, items: seq<Item>, i: nat)
    requires i < |items|
    ensures Run(rows, FlushOps(s, items, i + 1)) == ApplyOption(Run(rows, FlushOps(s, items, i)), OpAt(s, items, i))
  {
    hide OpAt, Run, Apply;
    var op, ops := OpAt(s, items, i), FlushOps(s, items, i);
    if op.Some? {
      RunStep(rows, ops, op.value);
    } else {
      assert ops + [] == ops;
    }
  }
}
