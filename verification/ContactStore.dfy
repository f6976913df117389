// internal/store/dao.go: UpsertContact and upsertContactHandleBinding, which keep the
// contacts table and the handle-binding history in agreement. Each SQL statement is
// one function on the table it changes; the class runs them in the source's order.
module ContactStore {
  import opened Wrappers
  import opened Text

  // The nullable text columns UpsertContact merges with COALESCE.
  datatype Column =
    | Name | NickName | Bio | ProfileMD | Tags | Relationship | SourceType | SourceName
    | SourceGroupID | ConnectedAt | RecommendedReason | Note | Metadata

  datatype Record = Record(
    ownerDID: string, did: string, handle: string, text: map<Column, string>,
    followed: Option<bool>, messaged: Option<bool>,
    firstSeen: Option<int>, lastSeen: Option<int>, credentialName: string)

  datatype Contact = Contact(
    handle: Option<string>, text: map<Column, string>, followed: bool, messaged: bool,
    firstSeen: int, lastSeen: int)

  datatype Binding = Binding(
    current: bool, firstSeen: int, lastSeen: int, text: map<Column, string>, credentialName: string)

  // Primary keys start with the owner in every table: (owner_did, did) for contacts and
  // (owner_did, handle, did) for bindings.
  datatype Owned<K> = Owned(owner: string, id: K)
  datatype HandleDID = HandleDID(handle: string, did: string)

  function ContactKey(owner: string, did: string): Owned<string> {
    Owned(owner, did)
  }

  function BindingKey(owner: string, handle: string, did: string): Owned<HandleDID> {
    Owned(owner, HandleDID(handle, did))
  }

  datatype State = State(contacts: map<Owned<string>, Contact>, bindings: map<Owned<HandleDID>, Binding>)

  // The SQL arguments of one call. The contact row is keyed by the DID as it is given, the
  // binding row by the trimmed DID; handle is None when it is blank.
  datatype Args = Args(
    owner: string, did: string, boundDid: string, handle: Option<string>, text: map<Column, string>,
    followed: Option<bool>, messaged: Option<bool>, firstSeen: Option<int>, lastSeen: Option<int>,
    credentialName: string)

  function Arguments(r: Record): (a: Args)
    ensures a.boundDid == "" <==> Blank(r.did)
    ensures a.did == a.boundDid <==> Trimmed(r.did)
    ensures a.handle != Some("")
  {
    TrimSpaceTrims(r.did);
    Args(
      TrimSpace(r.ownerDID), r.did, TrimSpace(r.did), Optional(r.handle), NotNull(r.text),
      r.followed, r.messaged, r.firstSeen, r.lastSeen, TrimSpace(r.credentialName))
  }

  // The columns that are not NULL after normalizeOptionalString.
  function NotNull(text: map<Column, string>): map<Column, string> {
    map c | c in text && !Blank(text[c]) :: TrimSpace(text[c])
  }

  function BindingColumns(text: map<Column, string>): map<Column, string> {
    map c | c in text && c in {SourceType, SourceGroupID, Metadata} :: text[c]
  }

  // ---- The statements ----

  // UPDATE contacts SET handle = NULL, last_seen_at = now WHERE owner_did = o AND did = d
  function ClearHandle(contacts: map<Owned<string>, Contact>, key: Owned<string>,
                       now: int): map<Owned<string>, Contact>
  {
    if key in contacts then contacts[key := contacts[key].(handle := None, lastSeen := now)] else contacts
  }

  // UPDATE contacts SET column = COALESCE(?, column) ...
  function MergeContact(row: Contact, a: Args, now: int): Contact {
    Contact(
      a.handle.OrElse(row.handle), row.text + a.text,
      a.followed.GetOr(row.followed), a.messaged.GetOr(row.messaged),
      a.firstSeen.GetOr(row.firstSeen), now)
  }

  // INSERT INTO contacts ...
  function NewContact(a: Args, now: int): Contact {
    Contact(
      a.handle, a.text, a.followed.GetOr(false), a.messaged.GetOr(false),
      a.firstSeen.GetOr(now), a.lastSeen.GetOr(now))
  }

  function PutContact(contacts: map<Owned<string>, Contact>, a: Args, now: int): map<Owned<string>, Contact> {
    var key := ContactKey(a.owner, a.did);
    contacts[key := if key in contacts then MergeContact(contacts[key], a, now) else NewContact(a, now)]
  }

  // UPDATE contact_handle_bindings SET is_current = 0 ... WHERE owner, handle AND did <> d
  function Demote(bindings: map<Owned<HandleDID>, Binding>, winner: Owned<HandleDID>,
                  seen: int): map<Owned<HandleDID>, Binding>
  {
    map k | k in bindings ::
      if k.owner == winner.owner && k.id.handle == winner.id.handle && k.id.did != winner.id.did
      then bindings[k].(current := false, lastSeen := if bindings[k].lastSeen < seen then seen
        else bindings[k].lastSeen)
      else bindings[k]
  }

  // INSERT INTO contact_handle_bindings ... ON CONFLICT(owner_did, handle, did) DO UPDATE ...
  function PutBinding(bindings: map<Owned<HandleDID>, Binding>, key: Owned<HandleDID>, a: Args,
                      now: int): map<Owned<HandleDID>, Binding>
  {
    var row := Binding(
      true, a.firstSeen.GetOr(now), a.lastSeen.GetOr(now), BindingColumns(a.text), a.credentialName);
    bindings[key :=
      if key in bindings
      then row.(firstSeen := bindings[key].firstSeen, text := bindings[key].text + row.text)
      else row]
  }

  // upsertContactHandleBinding
  function BindHandle(bindings: map<Owned<HandleDID>, Binding>, a: Args, now: int): map<Owned<HandleDID>, Binding> {
    match a.handle
    case None => bindings
    case Some(h) =>
      var key := BindingKey(a.owner, h, a.boundDid);
      PutBinding(Demote(bindings, key, a.lastSeen.GetOr(now)), key, a, now)
  }

  // ---- One call ----

  predicate Holds(contacts: map<Owned<string>, Contact>, owner: string, handle: string, did: string) {
    var k := ContactKey(owner, did);
    k in contacts && contacts[k].handle == Some(handle)
  }

  // Which contact the call clears: the query for holders of the handle has no ORDER BY and
  // only its first row is looked at.
  ghost predicate MayClear(s: State, a: Args, cleared: Option<string>) {
    match cleared
    case Some(d) => a.handle.Some? && d != a.did && Holds(s.contacts, a.owner, a.handle.value, d)
    case None =>
      a.handle.Some? && !Holds(s.contacts, a.owner, a.handle.value, a.did) ==>
        forall d :: !Holds(s.contacts, a.owner, a.handle.value, d)
  }

  function Upsert(s: State, a: Args, now: int, cleared: Option<string>): State {
    var contacts := match cleared
      case Some(d) => ClearHandle(s.contacts, ContactKey(a.owner, d), now)
      case None => s.contacts;
    State(PutContact(contacts, a, now), BindHandle(s.bindings, a, now))
  }

  class Store {
    var contacts: map<Owned<string>, Contact>
    var bindings: map<Owned<HandleDID>, Binding>

    constructor ()
      ensures contacts == map[] && bindings == map[]
    {
      contacts, bindings := map[], map[];
    }

    // failed is a database error at any statement: the transaction rolls back.
    method UpsertContact(r: Record, now: int, failed: bool) returns (ok: bool, ghost cleared: Option<string>)
      modifies this
      ensures ok == (!Blank(r.did) && !failed)
      ensures !ok ==> contacts == old(contacts) && bindings == old(bindings)
      ensures ok ==> MayClear(State(old(contacts), old(bindings)), Arguments(r), cleared)
      ensures ok ==>
        State(contacts, bindings) == Upsert(State(old(contacts), old(bindings)), Arguments(r), now, cleared)
    {
      if Blank(r.did) || failed {
        return false, None;
      }
      cleared := WriteContact(Arguments(r), now);
      ok := true;
    }

    method WriteContact(a: Args, now: int) returns (ghost cleared: Option<string>)
      modifies this
      ensures MayClear(State(old(contacts), old(bindings)), a, cleared)
      ensures State(contacts, bindings) == Upsert(State(old(contacts), old(bindings)), a, now, cleared)
    {
      cleared := None;
      if a.handle.Some? {
        cleared := ClearFirstHolder(a, now);
      }
      contacts := PutContact(contacts, a, now);
      if a.handle.Some? {
        var key := BindingKey(a.owner, a.handle.value, a.boundDid);
        bindings := Demote(bindings, key, a.lastSeen.GetOr(now));
        bindings := PutBinding(bindings, key, a, now);
      }
    }

    method ClearFirstHolder(a: Args, now: int) returns (ghost cleared: Option<string>)
      requires a.handle.Some?
      modifies this`contacts
      ensures MayClear(State(old(contacts), bindings), a, cleared)
      ensures contacts == if cleared.Some? then ClearHandle(old(contacts), ContactKey(a.owner, cleared.value), now)
        else old(contacts)
    {
      cleared := None;
      var holders := set k | k in contacts && k.owner == a.owner && contacts[k].handle == a.handle :: k.id;
      assert forall d :: Holds(contacts, a.owner, a.handle.value, d) ==> ContactKey(a.owner, d).id in holders;
      if holders != {} {
        var first :| first in holders;
        if first != a.did {
          cleared := Some(first);
          contacts := ClearHandle(contacts, ContactKey(a.owner, first), now);
        }
      }
    }
  }

  // ---- The invariant ----

  predicate IsCurrent(bindings: map<Owned<HandleDID>, Binding>, owner: string, handle: string, did: string) {
    var k := BindingKey(owner, handle, did);
    k in bindings && bindings[k].current
  }

  // The partial unique index on (owner_did, handle) WHERE is_current = 1.
  ghost predicate OneCurrent(bindings: map<Owned<HandleDID>, Binding>) {
    forall o, h, d, e :: IsCurrent(bindings, o, h, d) && IsCurrent(bindings, o, h, e) ==> d == e
  }

  predicate Bound(bindings: map<Owned<HandleDID>, Binding>, k: Owned<HandleDID>) {
    k in bindings
  }

  ghost predicate SomeCurrent(bindings: map<Owned<HandleDID>, Binding>) {
    forall k | Bound(bindings, k) :: exists d :: IsCurrent(bindings, k.owner, k.id.handle, d)
  }

  ghost predicate HandlesUnique(contacts: map<Owned<string>, Contact>) {
    forall o, h, d, e :: Holds(contacts, o, h, d) && Holds(contacts, o, h, e) ==> d == e
  }

  ghost predicate HandlesBacked(s: State) {
    forall o, h, d :: Holds(s.contacts, o, h, d) ==> IsCurrent(s.bindings, o, h, d)
  }

  ghost predicate Inv(s: State) {
    OneCurrent(s.bindings) && SomeCurrent(s.bindings) && HandlesUnique(s.contacts) && HandlesBacked(s)
  }

  lemma CurrentAfter(bindings: map<Owned<HandleDID>, Binding>, a: Args, now: int, o: string, h: string, d: string)
    ensures IsCurrent(BindHandle(bindings, a, now), o, h, d) <==>
      if a.handle == Some(h) && o == a.owner then d == a.boundDid else IsCurrent(bindings, o, h, d)
  {
  }

  lemma HoldersAfter(s: State, a: Args, now: int, cleared: Option<string>, o: string, h: string, d: string)
    ensures Holds(Upsert(s, a, now, cleared).contacts, o, h, d) <==>
      if o == a.owner && d == a.did && a.handle.Some? then a.handle == Some(h)
      else Holds(s.contacts, o, h, d) && !(o == a.owner && cleared == Some(d))
  {
  }

  // No statement of the call breaks the unique index, whatever the contacts table holds, and no
  // binding is ever removed.
  lemma UpsertKeepsIndex(s: State, a: Args, now: int, cleared: Option<string>)
    requires OneCurrent(s.bindings)
    ensures a.handle.Some?
      ==> OneCurrent(Demote(s.bindings, BindingKey(a.owner, a.handle.value, a.boundDid), a.lastSeen.GetOr(now)))
    ensures OneCurrent(Upsert(s, a, now, cleared).bindings)
    ensures s.bindings.Keys <= Upsert(s, a, now, cleared).bindings.Keys
  {
    if a.handle.Some? {
      var demoted := Demote(s.bindings, BindingKey(a.owner, a.handle.value, a.boundDid), a.lastSeen.GetOr(now));
      assert forall o, h, d | IsCurrent(demoted, o, h, d) :: IsCurrent(s.bindings, o, h, d);
    }
    forall o, h, d, e
      | IsCurrent(BindHandle(s.bindings, a, now), o, h, d) && IsCurrent(BindHandle(s.bindings, a, now), o, h, e)
      ensures d == e
    {
      CurrentAfter(s.bindings, a, now, o, h, d);
      CurrentAfter(s.bindings, a, now, o, h, e);
    }
  }

  lemma SomeCurrentKept(bindings: map<Owned<HandleDID>, Binding>, a: Args, now: int)
    requires SomeCurrent(bindings)
    ensures SomeCurrent(BindHandle(bindings, a, now))
  {
    forall k | Bound(BindHandle(bindings, a, now), k)
      ensures exists d :: IsCurrent(BindHandle(bindings, a, now), k.owner, k.id.handle, d)
    {
      var d := CurrentWitness(bindings, a, now, k);
    }
  }

  lemma CurrentWitness(bindings: map<Owned<HandleDID>, Binding>, a: Args, now: int, k: Owned<HandleDID>)
    returns (d: string)
    requires SomeCurrent(bindings) && Bound(BindHandle(bindings, a, now), k)
    ensures IsCurrent(BindHandle(bindings, a, now), k.owner, k.id.handle, d)
  {
    if a.handle == Some(k.id.handle) && k.owner == a.owner {
      d := a.boundDid;
    } else {
      assert Bound(bindings, k);
      d :| IsCurrent(bindings, k.owner, k.id.handle, d);
    }
    CurrentAfter(bindings, a, now, k.owner, k.id.handle, d);
  }

  // Under the invariant a handle has at most one holder, so looking at the first row suffices.
  lemma ClearedIsDetermined(s: State, a: Args, cleared: Option<string>, other: Option<string>)
    requires HandlesUnique(s.contacts) && MayClear(s, a, cleared) && MayClear(s, a, other)
    ensures cleared == other
  {
  }

  // A call with a handle keeps the invariant exactly when its DID is trimmed.
  lemma UpsertKeepsInv(s: State, a: Args, now: int, cleared: Option<string>)
    requires Inv(s) && MayClear(s, a, cleared)
    ensures Inv(Upsert(s, a, now, cleared)) <==> a.handle.None? || a.did == a.boundDid
  {
    hide BindHandle, PutContact, ClearHandle, IsCurrent, Holds;
    var t := Upsert(s, a, now, cleared);
    UpsertKeepsIndex(s, a, now, cleared);
    SomeCurrentKept(s.bindings, a, now);
    if a.handle.Some? {
      HoldersAfter(s, a, now, cleared, a.owner, a.handle.value, a.did);
      CurrentAfter(s.bindings, a, now, a.owner, a.handle.value, a.did);
    }
    if a.handle.None? || a.did == a.boundDid {
      forall o, h, d | Holds(t.contacts, o, h, d)
        ensures IsCurrent(t.bindings, o, h, d)
      {
        HoldersAfter(s, a, now, cleared, o, h, d);
        CurrentAfter(s.bindings, a, now, o, h, d);
        assert Holds(s.contacts, o, h, d) ==> IsCurrent(s.bindings, o, h, d);
      }
    }
  }

  // ---- Whole runs ----

  datatype Call = Call(a: Args, now: int)

  // A call with a blank DID is refused and changes nothing.
  ghost predicate Step(s: State, c: Call, t: State) {
    if c.a.boundDid == "" then t == s
    else exists cleared :: MayClear(s, c.a, cleared) && t == Upsert(s, c.a, c.now, cleared)
  }

  // states[i] is a state the first i calls of the log can lead to from empty tables.
  ghost predicate IsRun(log: seq<Call>, states: seq<State>) {
    && |states| == |log| + 1
    && states[0] == State(map[], map[])
    && forall i | 0 <= i < |log| :: Step(states[i], log[i], states[i + 1])
  }

  predicate Names(c: Call, owner: string, handle: string) {
    c.a.boundDid != "" && c.a.owner == owner && c.a.handle == Some(handle)
  }

  // The DID of the last of the first n calls that names the handle.
  function LastNamer(log: seq<Call>, n: nat, owner: string, handle: string): Option<string>
    requires n <= |log|
  {
    if n == 0 then None
    else if Names(log[n - 1], owner, handle) then Some(log[n - 1].a.did)
    else LastNamer(log, n - 1, owner, handle)
  }

  // The handle in the last of the first n calls that names one for this DID.
  function LastNamed(log: seq<Call>, n: nat, owner: string, did: string): Option<string>
    requires n <= |log|
  {
    if n == 0 then None
    else
      var a := log[n - 1].a;
      if a.boundDid != "" && a.owner == owner && a.did == did && a.handle.Some? then a.handle
      else LastNamed(log, n - 1, owner, did)
  }

  // A contact shows the last handle named for it unless another DID has been given that handle since.
  function ShownHandle(log: seq<Call>, n: nat, owner: string, did: string): Option<string>
    requires n <= |log|
  {
    match LastNamed(log, n, owner, did)
    case Some(h) => if LastNamer(log, n, owner, h) == Some(did) then Some(h) else None
    case None => None
  }

  predicate EverBound(log: seq<Call>, n: nat, k: Owned<HandleDID>)
    requires n <= |log|
  {
    exists i | 0 <= i < n :: Names(log[i], k.owner, k.id.handle) && log[i].a.did == k.id.did
  }

  ghost predicate BindingsAgree(s: State, log: seq<Call>, n: nat)
    requires n <= |log|
  {
    forall k :: Bound(s.bindings, k) <==> EverBound(log, n, k)
  }

  ghost predicate CurrentAgree(s: State, log: seq<Call>, n: nat)
    requires n <= |log|
  {
    forall o, h, d :: IsCurrent(s.bindings, o, h, d) <==> LastNamer(log, n, o, h) == Some(d)
  }

  ghost predicate ContactsAgree(s: State, log: seq<Call>, n: nat)
    requires n <= |log|
  {
    forall o, h, d :: Holds(s.contacts, o, h, d) <==> ShownHandle(log, n, o, d) == Some(h)
  }

  ghost predicate AgreesWith(s: State, log: seq<Call>, n: nat)
    requires n <= |log|
  {
    BindingsAgree(s, log, n) && CurrentAgree(s, log, n) && ContactsAgree(s, log, n)
  }

  // The tables are a replay of the log, after every call of every run.
  lemma {:induction false} TablesReplayLog(log: seq<Call>, states: seq<State>, n: nat)
    requires IsRun(log, states) && n <= |log|
    requires forall c | c in log :: c.a.did == c.a.boundDid
    ensures AgreesWith(states[n], log, n) && Inv(states[n])
  {
    hide Step, AgreesWith, Inv;
    if n > 0 {
      TablesReplayLog(log, states, n - 1);
      ReplayStep(log, n - 1, states[n - 1], states[n]);
    } else {
      EmptyAgrees(log);
    }
  }

  lemma EmptyAgrees(log: seq<Call>)
    ensures AgreesWith(State(map[], map[]), log, 0) && Inv(State(map[], map[]))
  {}

  lemma ReplayStep(log: seq<Call>, n: nat, s: State, t: State)
    requires n < |log| && AgreesWith(s, log, n) && Inv(s)
    requires Step(s, log[n], t) && log[n].a.did == log[n].a.boundDid
    ensures AgreesWith(t, log, n + 1) && Inv(t)
  {
    if log[n].a.boundDid == "" {
      RefusedStep(log, n, s);
    } else {
      var cleared :| MayClear(s, log[n].a, cleared) && t == Upsert(s, log[n].a, log[n].now, cleared);
      AcceptedStep(log, n, s, cleared);
    }
  }

  lemma RefusedStep(log: seq<Call>, n: nat, s: State)
    requires n < |log| && AgreesWith(s, log, n) && log[n].a.boundDid == ""
    ensures AgreesWith(s, log, n + 1)
  {
    forall k ensures Bound(s.bindings, k) <==> EverBound(log, n + 1, k) {
      EverBoundStep(log, n, k);
    }
    forall o, h, d ensures Holds(s.contacts, o, h, d) <==> ShownHandle(log, n + 1, o, d) == Some(h) {
      assert ShownHandle(log, n + 1, o, d) == ShownHandle(log, n, o, d);
    }
  }

  lemma AcceptedStep(log: seq<Call>, n: nat, s: State, cleared: Option<string>)
    requires n < |log| && AgreesWith(s, log, n) && Inv(s) && MayClear(s, log[n].a, cleared)
    requires log[n].a.did == log[n].a.boundDid != ""
    ensures AgreesWith(Upsert(s, log[n].a, log[n].now, cleared), log, n + 1)
    ensures Inv(Upsert(s, log[n].a, log[n].now, cleared))
  {
    hide BindHandle, PutContact, ClearHandle, IsCurrent, Holds, Bound, EverBound, LastNamer, ShownHandle, MayClear;
    var t := Upsert(s, log[n].a, log[n].now, cleared);
    UpsertKeepsInv(s, log[n].a, log[n].now, cleared);
    forall k ensures Bound(t.bindings, k) <==> EverBound(log, n + 1, k) {
      EverBoundStep(log, n, k);
      BoundAfter(s.bindings, log[n].a, log[n].now, k);
    }
    forall o, h, d ensures IsCurrent(t.bindings, o, h, d) <==> LastNamer(log, n + 1, o, h) == Some(d) {
      CurrentStep(log, n, s, o, h, d);
    }
    forall o, h, d ensures Holds(t.contacts, o, h, d) <==> ShownHandle(log, n + 1, o, d) == Some(h) {
      ShownStep(log, n, s, cleared, o, h, d);
    }
  }

  lemma BoundAfter(bindings: map<Owned<HandleDID>, Binding>, a: Args, now: int, k: Owned<HandleDID>)
    ensures Bound(BindHandle(bindings, a, now), k) <==>
      Bound(bindings, k) || (a.handle.Some? && k == BindingKey(a.owner, a.handle.value, a.boundDid))
  {
  }

  lemma CurrentStep(log: seq<Call>, n: nat, s: State, o: string, h: string, d: string)
    requires n < |log| && CurrentAgree(s, log, n) && log[n].a.did == log[n].a.boundDid != ""
    ensures IsCurrent(BindHandle(s.bindings, log[n].a, log[n].now), o, h, d) <==> LastNamer(log, n + 1, o, h) == Some(d)
  {
    CurrentAfter(s.bindings, log[n].a, log[n].now, o, h, d);
    assert IsCurrent(s.bindings, o, h, d) <==> LastNamer(log, n, o, h) == Some(d);
  }

  lemma EverBoundStep(log: seq<Call>, n: nat, k: Owned<HandleDID>)
    requires n < |log|
    ensures EverBound(log, n + 1, k)
      <==> EverBound(log, n, k) || (Names(log[n], k.owner, k.id.handle) && log[n].a.did == k.id.did)
  {
  }

  lemma ShownStep(log: seq<Call>, n: nat, s: State, cleared: Option<string>, o: string, h: string, d: string)
    requires n < |log| && ContactsAgree(s, log, n) && HandlesUnique(s.contacts)
    requires MayClear(s, log[n].a, cleared) && log[n].a.boundDid != ""
    ensures Holds(Upsert(s, log[n].a, log[n].now, cleared).contacts, o, h, d)
      <==> ShownHandle(log, n + 1, o, d) == Some(h)
  {
    var a := log[n].a;
    HoldersAfter(s, a, log[n].now, cleared, o, h, d);
    ShownAfter(log, n, o, d);
    assert Holds(s.contacts, o, h, d) <==> ShownHandle(log, n, o, d) == Some(h);
    if o == a.owner && a.handle == Some(h) && Holds(s.contacts, o, h, d) && d != a.did {
      assert cleared == Some(d);
    }
  }

  lemma ShownAfter(log: seq<Call>, n: nat, o: string, d: string)
    requires n < |log| && log[n].a.boundDid != ""
    ensures var a := log[n].a;
      ShownHandle(log, n + 1, o, d) ==
        if o == a.owner && a.handle.Some? && d == a.did then a.handle
        else if o == a.owner && a.handle.Some? && ShownHandle(log, n, o, d) == a.handle then None
        else ShownHandle(log, n, o, d)
  {
  }
}
