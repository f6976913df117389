// What one flush achieves, for every queue, every client and every pattern of database errors.
module OutboxProofs {
  import opened Wrappers
  import opened Text
  import opened Sorting
  import opened Outbox
  import opened OutboxFlush

  // ---- What the client is handed ----

  function Sends(items: seq<Item>, n: nat): seq<Item>
    requires n <= |items|
  {
    if n == 0 then [] else Sends(items, n - 1) + if IsSend(items[n - 1].action) then [items[n - 1]] else []
  }

  lemma {:induction false} RequestsAreSends(items: seq<Item>, n: nat)
    requires n <= |items|
    ensures |Requests(items, n)| == |Sends(items, n)|
    ensures forall j | 0 <= j < |Sends(items, n)| ::
      IsSend(Sends(items, n)[j].action)
      && Requests(items, n)[j] == RequestFor(Sends(items, n)[j].action, Sends(items, n)[j].id, Sends(items, n)[j].row)
  {
    hide RequestFor;
    if n > 0 {
      RequestsAreSends(items, n - 1);
    }
  }

  // Selecting keeps the order: any relation that holds between earlier and later items holds between
  // earlier and later sends.
  lemma {:induction false} SendsInOrder(items: seq<Item>, n: nat, before: (Item, Item) -> bool)
    requires n <= |items|
    requires forall i, j | 0 <= i < j < n :: before(items[i], items[j])
    ensures forall x :: x in Sends(items, n) <==> IsSend(x.action) && x in items[..n]
    ensures forall i, j | 0 <= i < j < |Sends(items, n)| :: before(Sends(items, n)[i], Sends(items, n)[j])
  {
    if n > 0 {
      SendsInOrder(items, n - 1, before);
      assert items[..n] == items[..n - 1] + [items[n - 1]];
      var rest := Sends(items, n - 1);
      forall i | 0 <= i < |rest| ensures before(rest[i], items[n - 1]) {
        assert rest[i] in rest;
        var k :| 0 <= k < n - 1 && items[..n - 1][k] == rest[i];
        assert items[k] == rest[i];
      }
    }
  }

  // Older, or of the same age and changed no earlier.
  function Earlier(): (Item, Item) -> bool {
    (a: Item, b: Item) =>
      && a.row.created <= b.row.created && a.id != b.id
      && (a.row.created == b.row.created ==> a.row.updated >= b.row.updated)
  }

  // The sorted queue: every queued row once, oldest first.
  lemma FlushItemsSpec(env: Env, rows: map<string, Row>, scope: Scope, listed: seq<string>)
    requires IsListing(rows, scope, Queued, listed)
    ensures var items := FlushItems(env, rows, listed);
      && (forall i, j | 0 <= i < j < |items| :: Earlier()(items[i], items[j]))
      && (forall x :: x in items <==>
            x.id in rows && InScope(rows[x.id], scope) && rows[x.id].status == Queued
            && x == Item(x.id, rows[x.id], Plan(env, x.id, rows[x.id])))
  {
    hide Plan, FlushOrder, IsListing;
    FlushOrderSpec(rows, scope, listed);
    var ids, items := FlushOrder(rows, listed), FlushItems(env, rows, listed);
    forall i, j | 0 <= i < j < |items| ensures Earlier()(items[i], items[j]) {
      assert ids[i] in ids && ids[j] in ids;
    }
    forall x ensures x in items <==>
      x.id in rows && InScope(rows[x.id], scope) && rows[x.id].status == Queued
      && x == Item(x.id, rows[x.id], Plan(env, x.id, rows[x.id]))
    {
      if x in items {
        var i :| 0 <= i < |items| && items[i] == x;
        assert ids[i] in ids;
      }
      if x.id in ids && x == Item(x.id, rows[x.id], Plan(env, x.id, rows[x.id])) {
        var i :| 0 <= i < |ids| && ids[i] == x.id;
        assert items[i] == x;
      }
    }
  }

  lemma FlushOrderSpec(rows: map<string, Row>, scope: Scope, listed: seq<string>)
    requires IsListing(rows, scope, Queued, listed)
    ensures var ids := FlushOrder(rows, listed);
      && (forall id | id in listed :: id in rows)
      && (forall id :: id in ids <==> id in rows && InScope(rows[id], scope) && rows[id].status == Queued)
      && forall i, j | 0 <= i < j < |ids| ::
           && ids[i] != ids[j] && Created(rows, ids[i]) <= Created(rows, ids[j])
           && (Created(rows, ids[i]) == Created(rows, ids[j]) ==> Changed(rows, ids[i]) >= Changed(rows, ids[j]))
  {
    hide InScope;
    var ids, oldest := FlushOrder(rows, listed), ByCreated(rows);
    SortKeepsElements(listed, oldest);
    SortSorts(listed, oldest);
    SortKeepsTies(listed, oldest, (a, b) => Changed(rows, a) >= Changed(rows, b));
    DistinctIDs(rows, listed);
    forall i, j | 0 <= i < j < |ids|
      ensures Created(rows, ids[i]) <= Created(rows, ids[j])
      ensures Created(rows, ids[i]) == Created(rows, ids[j]) ==> Changed(rows, ids[i]) >= Changed(rows, ids[j])
    {
      assert oldest(ids[i], ids[j]);
      assert Created(rows, ids[i]) == Created(rows, ids[j]) ==> oldest(ids[j], ids[i]);
    }
  }

  function Changed(rows: map<string, Row>, id: string): int {
    if id in rows then rows[id].updated else 0
  }

  lemma DistinctIDs(rows: map<string, Row>, listed: seq<string>)
    requires forall i, j | 0 <= i < j < |listed| :: listed[i] != listed[j]
    ensures forall i, j | 0 <= i < j < |FlushOrder(rows, listed)| ::
      FlushOrder(rows, listed)[i] != FlushOrder(rows, listed)[j]
  {
    SortPermutes(listed, ByCreated(rows));
    PermutedDistinct(listed, FlushOrder(rows, listed));
  }

  lemma PermutedDistinct(xs: seq<string>, ys: seq<string>)
    requires multiset(xs) == multiset(ys)
    requires forall i, j | 0 <= i < j < |xs| :: xs[i] != xs[j]
    ensures forall i, j | 0 <= i < j < |ys| :: ys[i] != ys[j]
  {
    forall x ensures multiset(xs)[x] <= 1 {
      AtMostOnce(xs, x);
    }
    forall i, j | 0 <= i < j < |ys| ensures ys[i] != ys[j] {
      if ys[i] == ys[j] {
        CountedTwice(ys, i, j);
      }
    }
  }

  lemma {:induction false} AtMostOnce(xs: seq<string>, x: string)
    requires forall i, j | 0 <= i < j < |xs| :: xs[i] != xs[j]
    ensures multiset(xs)[x] <= 1
  {
    if xs != [] {
      AtMostOnce(xs[1..], x);
      assert xs == [xs[0]] + xs[1..];
      if xs[0] == x {
        assert x !in xs[1..];
        assert multiset(xs[1..])[x] == 0;
      }
    }
  }

  // The client is handed exactly the sendable items of the queue, oldest first, each once.
  lemma FlushSendsItems(env: Env, rows: map<string, Row>, scope: Scope, listed: seq<string>)
    requires IsListing(rows, scope, Queued, listed)
    ensures var items := FlushItems(env, rows, listed);
      var sends, requests := Sends(items, |items|), Requests(items, |items|);
      && |requests| == |sends|
      && (forall j | 0 <= j < |sends| ::
            IsSend(sends[j].action) && requests[j] == RequestFor(sends[j].action, sends[j].id, sends[j].row))
      && (forall i, j | 0 <= i < j < |sends| :: Earlier()(sends[i], sends[j]))
      && (forall x :: x in sends <==>
            x.id in rows && InScope(rows[x.id], scope) && rows[x.id].status == Queued
            && x == Item(x.id, rows[x.id], Plan(env, x.id, rows[x.id])) && IsSend(x.action))
  {
    hide Plan;
    var items := FlushItems(env, rows, listed);
    FlushItemsSpec(env, rows, scope, listed);
    RequestsAreSends(items, |items|);
    SendsInOrder(items, |items|, Earlier());
    assert items[..|items|] == items;
  }

  // ---- What the outbox holds afterwards ----

  // The row of item p after the first n items: its one operation, if it had one.
  lemma {:induction false} RowAfterItems(rows: map<string, Row>, s: Session, items: seq<Item>, n: nat, id: string)
    requires n <= |items| && id in rows
    requires forall i, j | 0 <= i < j < |items| :: items[i].id != items[j].id
    ensures id in Run(rows, FlushOps(s, items, n))
    ensures Tracked(rows[id], Run(rows, FlushOps(s, items, n))[id], s, items, n, id)
  {
    hide Run, FlushOps, OpAt, RowAfterOp;
    if n > 0 {
      RowAfterItems(rows, s, items, n - 1, id);
      RowAfterItem(rows, s, items, n, id);
    } else {
      NothingDone(rows, s, items, map[]);
    }
  }

  lemma RowAfterItem(rows: map<string, Row>, s: Session, items: seq<Item>, n: nat, id: string)
    requires 0 < n <= |items| && id in rows && id in Run(rows, FlushOps(s, items, n - 1))
    requires forall i, j | 0 <= i < j < |items| :: items[i].id != items[j].id
    requires Tracked(rows[id], Run(rows, FlushOps(s, items, n - 1))[id], s, items, n - 1, id)
    ensures id in Run(rows, FlushOps(s, items, n))
    ensures Tracked(rows[id], Run(rows, FlushOps(s, items, n))[id], s, items, n, id)
  {
    hide Run, FlushOps, OpAt, ApplyOption, RowAfterOp, Tracked;
    var before := Run(rows, FlushOps(s, items, n - 1));
    OpsStep(rows, s, items, n - 1);
    OpAtItem(s, items, n - 1);
    ApplyOptionRow(before, OpAt(s, items, n - 1), items[n - 1].id, id);
    TrackStep(rows[id], before[id], s, items, n, id);
  }

  ghost predicate Tracked(row: Row, after: Row, s: Session, items: seq<Item>, n: nat, id: string)
    requires n <= |items|
  {
    && ((forall i | 0 <= i < n :: items[i].id != id) ==> after == row)
    && (forall p | 0 <= p < n && items[p].id == id :: after == RowAfterOp(row, OpAt(s, items, p)))
  }

  lemma TrackStep(row: Row, before: Row, s: Session, items: seq<Item>, n: nat, id: string)
    requires 0 < n <= |items| && Tracked(row, before, s, items, n - 1, id)
    requires forall i, j | 0 <= i < j < |items| :: items[i].id != items[j].id
    ensures Tracked(row, if id == items[n - 1].id then RowAfterOp(before, OpAt(s, items, n - 1)) else before,
                    s, items, n, id)
  {
    hide OpAt, RowAfterOp;
  }

  function RowAfterOp(row: Row, op: Option<Op>): Row {
    if op.Some? && Hits(op.value, row) then Updated(op.value, row) else row
  }

  lemma OpAtItem(s: Session, items: seq<Item>, i: nat)
    requires i < |items|
    ensures OpAt(s, items, i).Some? ==> OpAt(s, items, i).value.id == items[i].id && !OpAt(s, items, i).value.Insert?
  {
    hide TrimSpace;
  }

  lemma ApplyOptionRow(rows: map<string, Row>, op: Option<Op>, target: string, id: string)
    requires id in rows && (op.Some? ==> op.value.id == target && !op.value.Insert?)
    ensures id in ApplyOption(rows, op)
    ensures ApplyOption(rows, op)[id] == if id == target then RowAfterOp(rows[id], op) else rows[id]
  {
    hide Updated, Hits;
  }

  // What a flush makes of a listed row: a skipped row, or one whose write fails, is unchanged; a row the
  // client accepts is sent and carries the id its message was given; a row that is rejected or refused
  // is failed and says why.
  ghost predicate RowOutcome(s: Session, items: seq<Item>, p: nat, row: Row, after: Row)
    requires p < |items|
  {
    if items[p].action.Skip? || s.env.writeFails(p) then after == row
    else if IsSend(items[p].action) && ReplyAt(s, items, p).Accepted? then
      && after.status == Sent && after.attempts == row.attempts + 1
      && after.sentMsgID == Optional(SentID(ReplyAt(s, items, p).messageID, items[p].id)).OrElse(row.sentMsgID)
    else after.status == Failed && after.errorCode.Some? && after.attempts == row.attempts
  }

  // Every listed row has its outcome, and every other row is unchanged.
  lemma FlushOutcome(rows: map<string, Row>, s: Session, listed: seq<string>, id: string)
    requires IsListing(rows, ScopeOf(s.env.did, s.env.credential), Queued, listed) && !Blank(s.env.did) && id in rows
    ensures var items := FlushItems(s.env, rows, listed);
      var after := Run(rows, FlushOps(s, items, |items|));
      && id in after
      && (id !in listed ==> after[id] == rows[id])
      && (id in listed ==> exists p: nat :: p < |items| && items[p] == Item(id, rows[id], Plan(s.env, id, rows[id]))
                                            && RowOutcome(s, items, p, rows[id], after[id]))
  {
    hide Plan, TrimSpace, RowOutcome, OpAt, RowAfterOp, Run;
    var items := FlushItems(s.env, rows, listed);
    FlushItemsSpec(s.env, rows, ScopeOf(s.env.did, s.env.credential), listed);
    RowAfterItems(rows, s, items, |items|, id);
    var mine := Item(id, rows[id], Plan(s.env, id, rows[id]));
    if id in listed {
      assert mine in items;
      var p: nat :| p < |items| && items[p] == mine;
      OpOutcome(s, items, p, rows[id]);
    } else {
      forall i | 0 <= i < |items| ensures items[i].id != id {
        assert items[i] in items;
      }
    }
  }

  lemma OpOutcome(s: Session, items: seq<Item>, p: nat, row: Row)
    requires p < |items| && InScope(row, ScopeOf(s.env.did, s.env.credential)) && !Blank(s.env.did)
    ensures RowOutcome(s, items, p, row, RowAfterOp(row, OpAt(s, items, p)))
  {
    hide TrimSpace;
  }

  // SecureRetry takes any row in scope, whatever its status, so a row that has been sent is sent again.
  // It is passed over exactly when it has no id or no peer, or space around its peer.
  lemma RetriedRow(rows: map<string, Row>, s: Session, listed: seq<string>, id: string)
    requires CanRequeue(rows, s.env, id) && !Blank(s.env.did) && s.env.peer == rows[id].peer
    requires IsListing(Requeued(rows, s.env, id), ScopeOf(s.env.did, s.env.credential), Queued, listed)
    ensures var queued := Requeued(rows, s.env, id);
      var items := FlushItems(s.env, queued, listed);
      var after := Run(queued, FlushOps(s, items, |items|));
      && id in queued && queued[id].status == Queued && id in after
      && (exists p: nat | p < |items| ::
            items[p] == Item(id, queued[id], Plan(s.env, id, queued[id]))
              && RowOutcome(s, items, p, queued[id], after[id]))
      && (Plan(s.env, id, queued[id]) == Skip
          <==> id == "" || rows[id].peer == "" || !(Trimmed(rows[id].peer) || Blank(rows[id].peer)))
  {
    hide FlushItems, FlushOps, Run, RowOutcome, TrimSpace, Trimmed, InScope, ScopeOf;
    var queued := Requeued(rows, s.env, id);
    RequeuedRow(rows, s.env, id);
    assert id in listed;
    FlushOutcome(queued, s, listed, id);
    TrimSpaceTrims(rows[id].peer);
  }

  lemma RequeuedRow(rows: map<string, Row>, env: Env, id: string)
    requires CanRequeue(rows, env, id)
    ensures var queued := Requeued(rows, env, id);
      && id in queued && queued[id].status == Queued && queued[id].peer == rows[id].peer
      && queued[id].originalType == rows[id].originalType && queued[id].plaintext == rows[id].plaintext
      && InScope(queued[id], ScopeOf(env.did, env.credential))
  {}

  // ---- Flush and repair only issue operations the safety theorem covers ----

  // A client answers well when no message id it returns for a row that is then written is made of nothing but
  // space. Such an id would be recorded as none at all.
  predicate AnswersWell(s: Session, items: seq<Item>, n: nat)
    requires n <= |items|
  {
    forall i | 0 <= i < n && IsSend(items[i].action) && !s.env.writeFails(i) && ReplyAt(s, items, i).Accepted? ::
      ReplyAt(s, items, i).messageID == "" || !Blank(ReplyAt(s, items, i).messageID)
  }

  // Exactly then all operations of a flush are covered; and in any case they are statements of the commands.
  lemma {:induction false} FlushIssuesSoundOps(s: Session, items: seq<Item>, n: nat)
    requires n <= |items| && forall x | x in items :: !Blank(x.id)
    ensures forall op | op in FlushOps(s, items, n) :: Permitted(op)
    ensures (forall op | op in FlushOps(s, items, n) :: Issued(op)) <==> AnswersWell(s, items, n)
  {
    hide TrimSpace, OpAt, ReplyAt;
    if n > 0 {
      var before := FlushOps(s, items, n - 1);
      FlushIssuesSoundOps(s, items, n - 1);
      assert items[n - 1] in items;
      OpIsSound(s, items, n - 1);
      match OpAt(s, items, n - 1)
      case None =>
      case Some(op) =>
        assert forall o :: o in before + [op] <==> o in before || o == op;
    }
  }

  lemma OpIsSound(s: Session, items: seq<Item>, i: nat)
    requires i < |items| && !Blank(items[i].id)
    ensures OpAt(s, items, i).Some? ==> Permitted(OpAt(s, items, i).value)
    ensures OpAt(s, items, i).Some? && !Issued(OpAt(s, items, i).value)
      <==> IsSend(items[i].action) && !s.env.writeFails(i) && ReplyAt(s, items, i).Accepted?
           && ReplyAt(s, items, i).messageID != "" && Blank(ReplyAt(s, items, i).messageID)
  {
    hide TrimSpace;
  }

  lemma {:induction false} RepairIssuesSoundOps(rows: map<string, Row>, scope: Scope, peer: string,
                                                listed: seq<string>, n: nat, now: int)
    requires n <= |listed|
    ensures forall op | op in RepairOps(rows, scope, peer, listed, n, now) :: Issued(op)
  {
    if n > 0 {
      RepairIssuesSoundOps(rows, scope, peer, listed, n - 1, now);
    }
  }

  // Repair queues exactly the failed rows of the peer again.
  lemma {:induction false} RepairRequeuesFailed(rows: map<string, Row>, scope: Scope, peer: string,
                                                listed: seq<string>, n: nat, now: int, id: string)
    requires n <= |listed| && IsListing(rows, scope, Failed, listed) && id in rows
    ensures id in Run(rows, RepairOps(rows, scope, peer, listed, n, now))
    ensures Run(rows, RepairOps(rows, scope, peer, listed, n, now))[id] ==
      Repaired(rows[id], peer, now, id in listed[..n])
  {
    if n > 0 {
      RepairRequeuesFailed(rows, scope, peer, listed, n - 1, now, id);
      RepairRow(rows, scope, peer, listed, n, now, id);
    }
  }

  function Repaired(row: Row, peer: string, now: int, listed: bool): Row {
    if listed && row.peer == peer then row.(status := Queued, updated := now) else row
  }

  lemma RepairRow(rows: map<string, Row>, scope: Scope, peer: string, listed: seq<string>, n: nat, now: int, id: string)
    requires 0 < n <= |listed| && IsListing(rows, scope, Failed, listed) && id in rows
    requires var before := Run(rows, RepairOps(rows, scope, peer, listed, n - 1, now));
      id in before && before[id] == Repaired(rows[id], peer, now, id in listed[..n - 1])
    ensures id in Run(rows, RepairOps(rows, scope, peer, listed, n, now))
    ensures Run(rows, RepairOps(rows, scope, peer, listed, n, now))[id] ==
      Repaired(rows[id], peer, now, id in listed[..n])
  {
    hide Run, ApplyOption;
    var ops, last := RepairOps(rows, scope, peer, listed, n - 1, now), listed[n - 1];
    assert last in listed && listed[..n] == listed[..n - 1] + [last] && last !in listed[..n - 1];
    var op := if rows[last].peer == peer then Some(SetStatus(last, scope, Queued, now)) else None;
    RepairStep(rows, ops, op);
    ApplyOptionRow(Run(rows, ops), op, last, id);
  }

  lemma RepairStep(rows: map<string, Row>, ops: seq<Op>, op: Option<Op>)
    ensures Run(rows, ops + (if op.Some? then [op.value] else [])) == ApplyOption(Run(rows, ops), op)
  {
    if op.Some? {
      RunStep(rows, ops, op.value);
    } else {
      assert ops + [] == ops;
    }
  }
}
