// internal/store/dao.go: what the contacts and the handle bindings show of the calls of UpsertContact, column by
// column, after every call of every run.
module ContactColumns {
  import opened Wrappers
  import opened Text
  import opened ContactStore

  // A call as it is made, and the time of it.
  datatype Made = Made(record: Record, now: int)

  function CallsOf(made: seq<Made>): seq<Call> {
    seq(|made|, i requires 0 <= i < |made| => Call(Arguments(made[i].record), made[i].now))
  }

  // A call that is not refused, for this contact.
  predicate IsFor(m: Made, owner: string, did: string) {
    TrimSpace(m.record.did) != "" && TrimSpace(m.record.ownerDID) == owner && m.record.did == did
  }

  // A call that binds the handle to the DID.
  predicate Binds(m: Made, owner: string, handle: string, did: string) {
    NamesHandle(m, owner, handle) && TrimSpace(m.record.did) == did
  }

  predicate NamesHandle(m: Made, owner: string, handle: string) {
    && TrimSpace(m.record.did) != "" && TrimSpace(m.record.ownerDID) == owner
    && handle != "" && TrimSpace(m.record.handle) == handle
  }

  // What a call gives for a text column: nothing when it is blank.
  function Given(r: Record, c: Column): Option<string> {
    if c in r.text && TrimSpace(r.text[c]) != "" then Some(TrimSpace(r.text[c])) else None
  }

  function At(text: map<Column, string>, c: Column): Option<string> {
    if c in text then Some(text[c]) else None
  }

  // The last value among the first n, nothing when there is none.
  ghost predicate IsLast<T>(v: Option<T>, n: nat, value: int -> Option<T>) {
    match v
    case None => forall i | 0 <= i < n :: value(i) == None
    case Some(x) => exists i :: 0 <= i < n && value(i) == Some(x) && forall j | i < j < n :: value(j) == None
  }

  lemma LastStep<T>(v: Option<T>, n: nat, value: int -> Option<T>)
    requires IsLast(v, n, value)
    ensures IsLast(if value(n).Some? then value(n) else v, n + 1, value)
  {}

  // ---- Contacts ----

  function TextOf(made: seq<Made>, owner: string, did: string, c: Column): int -> Option<string> {
    (i: int) => if 0 <= i < |made| && IsFor(made[i], owner, did) then Given(made[i].record, c) else None
  }

  function FollowedOf(made: seq<Made>, owner: string, did: string): int -> Option<bool> {
    (i: int) => if 0 <= i < |made| && IsFor(made[i], owner, did) then made[i].record.followed else None
  }

  function MessagedOf(made: seq<Made>, owner: string, did: string): int -> Option<bool> {
    (i: int) => if 0 <= i < |made| && IsFor(made[i], owner, did) then made[i].record.messaged else None
  }

  function SeenOf(made: seq<Made>, owner: string, did: string): int -> Option<int> {
    (i: int) => if 0 <= i < |made| && IsFor(made[i], owner, did) then made[i].record.firstSeen else None
  }

  ghost predicate IsFirstFor(made: seq<Made>, i: int, owner: string, did: string) {
    0 <= i < |made| && IsFor(made[i], owner, did) && forall j | 0 <= j < i :: !IsFor(made[j], owner, did)
  }

  ghost predicate ShowsFlag(flag: bool, n: nat, value: int -> Option<bool>) {
    exists v :: IsLast(v, n, value) && flag == (v == Some(true))
  }

  ghost predicate ShowsFirstSeen(time: int, made: seq<Made>, n: nat, owner: string, did: string) {
    exists v, i :: IsLast(v, n, SeenOf(made, owner, did)) && i < n && IsFirstFor(made, i, owner, did)
      && time == if v.Some? then v.value else made[i].now
  }

  // Text columns and flags show the last value given, the time of first sight the last one given or else
  // that of the first call.
  ghost predicate ShowsCalls(row: Contact, made: seq<Made>, n: nat, owner: string, did: string) {
    && (forall c :: IsLast(At(row.text, c), n, TextOf(made, owner, did, c)))
    && ShowsFlag(row.followed, n, FollowedOf(made, owner, did))
    && ShowsFlag(row.messaged, n, MessagedOf(made, owner, did))
    && ShowsFirstSeen(row.firstSeen, made, n, owner, did)
  }

  ghost predicate ContactsShow(contacts: map<Owned<string>, Contact>, made: seq<Made>, n: nat, owner: string,
                               did: string)
  {
    var k := ContactKey(owner, did);
    && (k in contacts <==> exists i :: 0 <= i < n && i < |made| && IsFor(made[i], owner, did))
    && (k in contacts ==> ShowsCalls(contacts[k], made, n, owner, did))
  }

  // A row of contacts after any calls.
  lemma {:induction false} ContactShowsCalls(made: seq<Made>, states: seq<State>, n: nat, owner: string, did: string)
    requires IsRun(CallsOf(made), states) && n <= |made|
    ensures ContactsShow(states[n].contacts, made, n, owner, did)
  {
    hide Step, ContactsShow, Arguments;
    if n == 0 {
      NoContacts(made, owner, did);
    } else {
      ContactShowsCalls(made, states, n - 1, owner, did);
      assert CallsOf(made)[n - 1] == Call(Arguments(made[n - 1].record), made[n - 1].now);
      ContactStep(states[n - 1], states[n], made, n - 1, owner, did);
    }
  }

  lemma NoContacts(made: seq<Made>, owner: string, did: string)
    ensures ContactsShow(map[], made, 0, owner, did)
  {}

  lemma ContactStep(s: State, t: State, made: seq<Made>, n: nat, owner: string, did: string)
    requires n < |made| && Step(s, Call(Arguments(made[n].record), made[n].now), t)
    requires ContactsShow(s.contacts, made, n, owner, did)
    ensures ContactsShow(t.contacts, made, n + 1, owner, did)
  {
    hide ShowsCalls, Upsert, MayClear, TrimSpace, IsLast, Arguments, Given;
    var m, k := made[n], ContactKey(owner, did);
    ArgumentsByField(m.record);
    if TrimSpace(m.record.did) == "" {
      if k in s.contacts {
        UpdateStep(s.contacts[k], s.contacts[k], made, n, owner, did);
      }
    } else {
      var cleared :| MayClear(s, Arguments(m.record), cleared)
        && t == Upsert(s, Arguments(m.record), m.now, cleared);
      AcceptedStep(s, t, cleared, made, n, owner, did);
    }
  }

  lemma AcceptedStep(s: State, t: State, cleared: Option<string>, made: seq<Made>, n: nat, owner: string, did: string)
    requires n < |made| && TrimSpace(made[n].record.did) != "" && MayClear(s, Arguments(made[n].record), cleared)
    requires t == Upsert(s, Arguments(made[n].record), made[n].now, cleared)
    requires ContactsShow(s.contacts, made, n, owner, did)
    ensures ContactsShow(t.contacts, made, n + 1, owner, did)
  {
    hide ShowsCalls, Upsert, MayClear, IsLast, Arguments, IsFor, IsUpdate;
    var m, k := made[n], ContactKey(owner, did);
    if IsFor(m, owner, did) {
      OwnUpdate(s, t, cleared, made, n, owner, did);
      if k in s.contacts {
        UpdateStep(s.contacts[k], t.contacts[k], made, n, owner, did);
      } else {
        FirstCall(t.contacts[k], made, n, owner, did);
      }
    } else {
      OtherUpdate(s, t, cleared, made, n, owner, did);
      if k in s.contacts {
        UpdateStep(s.contacts[k], t.contacts[k], made, n, owner, did);
      }
    }
  }

  lemma OwnUpdate(s: State, t: State, cleared: Option<string>, made: seq<Made>, n: nat, owner: string, did: string)
    requires n < |made| && IsFor(made[n], owner, did) && MayClear(s, Arguments(made[n].record), cleared)
    requires t == Upsert(s, Arguments(made[n].record), made[n].now, cleared)
    ensures var k, r := ContactKey(owner, did), made[n].record;
      && k in t.contacts
      && (k in s.contacts ==> IsUpdate(s.contacts[k], t.contacts[k], made, n, owner, did))
      && (k !in s.contacts ==> IsNew(t.contacts[k], made[n]))
  {
    hide Upsert, MayClear, TrimSpace, Arguments, Given;
    ArgumentsByField(made[n].record);
    ContactAfter(s, Arguments(made[n].record), made[n].now, cleared, owner, did);
  }

  lemma OtherUpdate(s: State, t: State, cleared: Option<string>, made: seq<Made>, n: nat, owner: string, did: string)
    requires n < |made| && TrimSpace(made[n].record.did) != "" && !IsFor(made[n], owner, did)
    requires MayClear(s, Arguments(made[n].record), cleared)
    requires t == Upsert(s, Arguments(made[n].record), made[n].now, cleared)
    ensures var k := ContactKey(owner, did);
      && (k in t.contacts <==> k in s.contacts)
      && (k in s.contacts ==> IsUpdate(s.contacts[k], t.contacts[k], made, n, owner, did))
  {
    hide Upsert, MayClear, TrimSpace, Arguments, Given;
    ArgumentsByField(made[n].record);
    ContactAfter(s, Arguments(made[n].record), made[n].now, cleared, owner, did);
  }

  // The row a call makes.
  ghost predicate IsNew(row: Contact, m: Made) {
    && (forall c :: At(row.text, c) == Given(m.record, c))
    && row.followed == (m.record.followed == Some(true)) && row.messaged == (m.record.messaged == Some(true))
    && row.firstSeen == (if m.record.firstSeen.Some? then m.record.firstSeen.value else m.now)
  }

  // The arguments a record is turned into.
  lemma ArgumentsByField(r: Record)
    ensures var a := Arguments(r);
      && a.owner == TrimSpace(r.ownerDID) && a.did == r.did && a.boundDid == TrimSpace(r.did)
      && a.handle == (if TrimSpace(r.handle) == "" then None else Some(TrimSpace(r.handle)))
      && a.followed == r.followed && a.messaged == r.messaged
      && a.firstSeen == r.firstSeen && a.lastSeen == r.lastSeen && a.credentialName == TrimSpace(r.credentialName)
      && forall c :: At(a.text, c) == Given(r, c)
  {
    hide TrimSpace;
  }

  // What one call does to a contact.
  lemma ContactAfter(s: State, a: Args, now: int, cleared: Option<string>, owner: string, did: string)
    requires MayClear(s, a, cleared)
    ensures var k, after := ContactKey(owner, did), Upsert(s, a, now, cleared).contacts;
      if a.owner == owner && a.did == did then
        && k in after && after[k].lastSeen == (if k in s.contacts then now else a.lastSeen.GetOr(now))
        && after[k].followed == (if a.followed.Some? then a.followed.value
                                 else k in s.contacts && s.contacts[k].followed)
        && after[k].messaged == (if a.messaged.Some? then a.messaged.value
                                 else k in s.contacts && s.contacts[k].messaged)
        && after[k].firstSeen == (if a.firstSeen.Some? then a.firstSeen.value
                                  else if k in s.contacts then s.contacts[k].firstSeen else now)
        && forall c :: At(after[k].text, c) ==
             if At(a.text, c).Some? then At(a.text, c) else if k in s.contacts then At(s.contacts[k].text, c) else None
      else
        && (k in after <==> k in s.contacts)
        && (k in after ==>
              if after[k].handle == s.contacts[k].handle then after[k] == s.contacts[k]
              else after[k] == s.contacts[k].(handle := None, lastSeen := now))
  {}

  // The row takes over what the call gives, and only a call for the contact gives anything.
  ghost predicate IsUpdate(before: Contact, after: Contact, made: seq<Made>, n: nat, owner: string, did: string) {
    && (forall c :: At(after.text, c) == TextOf(made, owner, did, c)(n).OrElse(At(before.text, c)))
    && after.followed == FollowedOf(made, owner, did)(n).GetOr(before.followed)
    && after.messaged == MessagedOf(made, owner, did)(n).GetOr(before.messaged)
    && after.firstSeen == SeenOf(made, owner, did)(n).GetOr(before.firstSeen)
  }

  lemma UpdateStep(before: Contact, after: Contact, made: seq<Made>, n: nat, owner: string, did: string)
    requires ShowsCalls(before, made, n, owner, did) && IsUpdate(before, after, made, n, owner, did)
    ensures ShowsCalls(after, made, n + 1, owner, did)
  {
    hide IsLast, ShowsFlag, ShowsFirstSeen;
    forall c ensures IsLast(At(after.text, c), n + 1, TextOf(made, owner, did, c)) {
      LastStep(At(before.text, c), n, TextOf(made, owner, did, c));
    }
    FlagStep(before.followed, after.followed, n, FollowedOf(made, owner, did));
    FlagStep(before.messaged, after.messaged, n, MessagedOf(made, owner, did));
    FirstSeenStep(before.firstSeen, after.firstSeen, made, n, owner, did);
  }

  lemma FlagStep(before: bool, after: bool, n: nat, value: int -> Option<bool>)
    requires ShowsFlag(before, n, value) && after == value(n).GetOr(before)
    ensures ShowsFlag(after, n + 1, value)
  {
    hide IsLast;
    var v :| IsLast(v, n, value) && before == (v == Some(true));
    LastStep(v, n, value);
  }

  lemma FirstSeenStep(before: int, after: int, made: seq<Made>, n: nat, owner: string, did: string)
    requires ShowsFirstSeen(before, made, n, owner, did) && after == SeenOf(made, owner, did)(n).GetOr(before)
    ensures ShowsFirstSeen(after, made, n + 1, owner, did)
  {
    hide IsLast, SeenOf;
    var v, i :| IsLast(v, n, SeenOf(made, owner, did)) && i < n && IsFirstFor(made, i, owner, did)
      && before == if v.Some? then v.value else made[i].now;
    LastStep(v, n, SeenOf(made, owner, did));
  }

  lemma FirstCall(after: Contact, made: seq<Made>, n: nat, owner: string, did: string)
    requires n < |made| && IsFirstFor(made, n, owner, did)
    requires IsNew(after, made[n])
    ensures ShowsCalls(after, made, n + 1, owner, did)
  {
    hide IsLast, IsFor, Given;
    NoneBefore(made, n, owner, did);
    forall c ensures IsLast(At(after.text, c), n + 1, TextOf(made, owner, did, c)) {
      LastStep(None, n, TextOf(made, owner, did, c));
    }
    LastStep(None, n, FollowedOf(made, owner, did));
    LastStep(None, n, MessagedOf(made, owner, did));
    LastStep(None, n, SeenOf(made, owner, did));
  }

  lemma NoneBefore(made: seq<Made>, n: nat, owner: string, did: string)
    requires n <= |made| && forall j | 0 <= j < n :: !IsFor(made[j], owner, did)
    ensures forall c :: IsLast(None, n, TextOf(made, owner, did, c))
    ensures IsLast(None, n, FollowedOf(made, owner, did)) && IsLast(None, n, MessagedOf(made, owner, did))
    ensures IsLast(None, n, SeenOf(made, owner, did))
  {
    hide IsFor;
  }

  // ---- When a contact was seen last ----

  // A call for the contact, or one that takes its handle away.
  ghost predicate Touches(made: seq<Made>, states: seq<State>, i: int, owner: string, did: string)
    requires 0 <= i < |made| && |states| == |made| + 1
  {
    var k := ContactKey(owner, did);
    || IsFor(made[i], owner, did)
    || (k in states[i].contacts && k in states[i + 1].contacts
        && states[i].contacts[k].handle != states[i + 1].contacts[k].handle)
  }

  ghost predicate LastTouches(made: seq<Made>, states: seq<State>, i: int, n: nat, owner: string, did: string)
    requires n <= |made| && |states| == |made| + 1
  {
    0 <= i < n && Touches(made, states, i, owner, did) && forall j | i < j < n :: !Touches(made, states, j, owner, did)
  }

  // It shows the time of the call that touched it last, or the time that call gives if it made the row.
  lemma {:induction false} ContactSeenLast(made: seq<Made>, states: seq<State>, n: nat, owner: string, did: string)
    requires IsRun(CallsOf(made), states) && n <= |made|
    ensures var k := ContactKey(owner, did);
      k in states[n].contacts ==>
        exists i :: LastTouches(made, states, i, n, owner, did)
          && states[n].contacts[k].lastSeen ==
             if k !in states[i].contacts && made[i].record.lastSeen.Some? then made[i].record.lastSeen.value
             else made[i].now
  {
    hide Step, Arguments, Touches;
    var k := ContactKey(owner, did);
    if n > 0 {
      ContactSeenLast(made, states, n - 1, owner, did);
      assert CallsOf(made)[n - 1] == Call(Arguments(made[n - 1].record), made[n - 1].now);
      TouchStep(made, states, n - 1, owner, did);
      if k in states[n].contacts && Touches(made, states, n - 1, owner, did) {
        assert LastTouches(made, states, n - 1, n, owner, did);
      } else if k in states[n].contacts {
        var i :| LastTouches(made, states, i, n - 1, owner, did)
          && states[n - 1].contacts[k].lastSeen ==
             if k !in states[i].contacts && made[i].record.lastSeen.Some? then made[i].record.lastSeen.value
             else made[i].now;
        assert LastTouches(made, states, i, n, owner, did);
      }
    }
  }

  lemma TouchStep(made: seq<Made>, states: seq<State>, n: nat, owner: string, did: string)
    requires n < |made| && |states| == |made| + 1
    requires Step(states[n], Call(Arguments(made[n].record), made[n].now), states[n + 1])
    ensures var k := ContactKey(owner, did);
      k in states[n + 1].contacts ==>
        if Touches(made, states, n, owner, did) then
          states[n + 1].contacts[k].lastSeen ==
            if k !in states[n].contacts && made[n].record.lastSeen.Some? then made[n].record.lastSeen.value
            else made[n].now
        else k in states[n].contacts && states[n + 1].contacts[k] == states[n].contacts[k]
  {
    hide Upsert, MayClear, TrimSpace;
    var m := made[n];
    ArgumentsByField(m.record);
    if TrimSpace(m.record.did) != "" {
      var cleared :| MayClear(states[n], Arguments(m.record), cleared)
        && states[n + 1] == Upsert(states[n], Arguments(m.record), m.now, cleared);
      ContactAfter(states[n], Arguments(m.record), m.now, cleared, owner, did);
    }
  }

  // ---- Bindings ----

  function BoundTextOf(made: seq<Made>, owner: string, handle: string, did: string, c: Column): int -> Option<string> {
    (i: int) => if 0 <= i < |made| && Binds(made[i], owner, handle, did) then Given(made[i].record, c) else None
  }

  ghost predicate IsFirstBinding(made: seq<Made>, i: int, owner: string, handle: string, did: string) {
    && 0 <= i < |made| && Binds(made[i], owner, handle, did)
    && forall j | 0 <= j < i :: !Binds(made[j], owner, handle, did)
  }

  ghost predicate IsLastBinding(made: seq<Made>, i: int, n: nat, owner: string, handle: string, did: string) {
    && 0 <= i < n && i < |made| && Binds(made[i], owner, handle, did)
    && forall j | i < j < n && j < |made| :: !Binds(made[j], owner, handle, did)
  }

  function SeenAt(m: Made): int {
    if m.record.lastSeen.Some? then m.record.lastSeen.value else m.now
  }

  // The time of call i, or of a later one that gives the handle to another DID, whichever is the latest.
  ghost predicate IsLatest(time: int, made: seq<Made>, i: int, n: nat, owner: string, handle: string)
    requires 0 <= i < |made|
  {
    && (time == SeenAt(made[i])
        || exists j :: i < j < n && j < |made| && NamesHandle(made[j], owner, handle) && time == SeenAt(made[j]))
    && time >= SeenAt(made[i])
    && forall j | i < j < n && j < |made| && NamesHandle(made[j], owner, handle) :: time >= SeenAt(made[j])
  }

  ghost predicate ShowsBoundText(text: map<Column, string>, made: seq<Made>, n: nat, owner: string, handle: string,
                                 did: string)
  {
    forall c :: if c in {SourceType, SourceGroupID, Metadata}
                then IsLast(At(text, c), n, BoundTextOf(made, owner, handle, did, c)) else c !in text
  }

  ghost predicate ShowsFirstBinding(row: Binding, made: seq<Made>, i: int, owner: string, handle: string, did: string)
  {
    IsFirstBinding(made, i, owner, handle, did)
    && row.firstSeen == if made[i].record.firstSeen.Some? then made[i].record.firstSeen.value else made[i].now
  }

  ghost predicate ShowsLastBinding(row: Binding, made: seq<Made>, i: int, n: nat, owner: string, handle: string,
                                   did: string)
  {
    && IsLastBinding(made, i, n, owner, handle, did)
    && row.credentialName == TrimSpace(made[i].record.credentialName)
    && IsLatest(row.lastSeen, made, i, n, owner, handle)
    && (row.current <==> forall j | i < j < n && j < |made| :: !NamesHandle(made[j], owner, handle))
  }

  ghost predicate ShowsBindings(row: Binding, made: seq<Made>, n: nat, owner: string, handle: string, did: string) {
    && ShowsBoundText(row.text, made, n, owner, handle, did)
    && (exists i :: i < n && ShowsFirstBinding(row, made, i, owner, handle, did))
    && (exists i :: ShowsLastBinding(row, made, i, n, owner, handle, did))
  }

  ghost predicate BindingsShow(bindings: map<Owned<HandleDID>, Binding>, made: seq<Made>, n: nat, owner: string,
                               handle: string, did: string)
  {
    var k := BindingKey(owner, handle, did);
    && (k in bindings <==> exists i :: 0 <= i < n && i < |made| && Binds(made[i], owner, handle, did))
    && (k in bindings ==> ShowsBindings(bindings[k], made, n, owner, handle, did))
  }

  // A row of bindings after any calls: its three text columns show the last value given, it was first seen in
  // its first call, its credential is that of its last call, it is current unless another DID was given the
  // handle since, and it was seen last then.
  lemma {:induction false} BindingShowsCalls(made: seq<Made>, states: seq<State>, n: nat, owner: string,
                                             handle: string, did: string)
    requires IsRun(CallsOf(made), states) && n <= |made|
    ensures BindingsShow(states[n].bindings, made, n, owner, handle, did)
  {
    hide Step, BindingsShow, Arguments;
    if n == 0 {
      NoBindings(made, owner, handle, did);
    } else {
      BindingShowsCalls(made, states, n - 1, owner, handle, did);
      assert CallsOf(made)[n - 1] == Call(Arguments(made[n - 1].record), made[n - 1].now);
      BindingStep(states[n - 1], states[n], made, n - 1, owner, handle, did);
    }
  }

  lemma NoBindings(made: seq<Made>, owner: string, handle: string, did: string)
    ensures BindingsShow(map[], made, 0, owner, handle, did)
  {}

  lemma BindingStep(s: State, t: State, made: seq<Made>, n: nat, owner: string, handle: string, did: string)
    requires n < |made| && Step(s, Call(Arguments(made[n].record), made[n].now), t)
    requires BindingsShow(s.bindings, made, n, owner, handle, did)
    ensures BindingsShow(t.bindings, made, n + 1, owner, handle, did)
  {
    hide ShowsBindings, BindHandle, MayClear, TrimSpace, IsLast, PutContact;
    var m, k := made[n], BindingKey(owner, handle, did);
    ArgumentsByField(m.record);
    if TrimSpace(m.record.did) == "" {
      if k in s.bindings {
        UnnamedStep(s.bindings[k], made, n, owner, handle, did);
      }
    } else {
      var cleared :| MayClear(s, Arguments(m.record), cleared)
        && t == Upsert(s, Arguments(m.record), m.now, cleared);
      BindingAfter(s.bindings, Arguments(m.record), m.now, owner, handle, did);
      if Binds(m, owner, handle, did) {
        BoundStep(s.bindings, t.bindings[k], made, n, owner, handle, did);
      } else if k in s.bindings {
        if NamesHandle(m, owner, handle) {
          DemotedStep(s.bindings[k], t.bindings[k], made, n, owner, handle, did);
        } else {
          UnnamedStep(s.bindings[k], made, n, owner, handle, did);
        }
      }
    }
  }

  // What one call does to a binding.
  lemma BindingAfter(bindings: map<Owned<HandleDID>, Binding>, a: Args, now: int, owner: string, handle: string,
                     did: string)
    ensures var k, after := BindingKey(owner, handle, did), BindHandle(bindings, a, now);
      var seen := if a.lastSeen.Some? then a.lastSeen.value else now;
      if a.handle == Some(handle) && a.owner == owner && a.boundDid == did then
        && k in after && after[k].current && after[k].lastSeen == seen && after[k].credentialName == a.credentialName
        && after[k].firstSeen == (if k in bindings then bindings[k].firstSeen
                                  else if a.firstSeen.Some? then a.firstSeen.value else now)
        && forall c :: At(after[k].text, c) ==
             if c in {SourceType, SourceGroupID, Metadata} && At(a.text, c).Some? then At(a.text, c)
             else if k in bindings then At(bindings[k].text, c) else None
      else if a.handle == Some(handle) && a.owner == owner then
        && (k in after <==> k in bindings)
        && (k in after ==>
              after[k] == bindings[k].(current := false,
                                       lastSeen := if bindings[k].lastSeen < seen then seen else bindings[k].lastSeen))
      else (k in after <==> k in bindings) && (k in after ==> after[k] == bindings[k])
  {}

  lemma UnnamedStep(row: Binding, made: seq<Made>, n: nat, owner: string, handle: string, did: string)
    requires n < |made| && !NamesHandle(made[n], owner, handle)
    requires ShowsBindings(row, made, n, owner, handle, did)
    ensures ShowsBindings(row, made, n + 1, owner, handle, did)
  {
    hide ShowsBoundText, ShowsFirstBinding, ShowsLastBinding, NamesHandle;
    BoundTextStep(row.text, made, n, owner, handle, did);
    var i :| ShowsLastBinding(row, made, i, n, owner, handle, did);
    UnnamedLast(row, made, i, n, owner, handle, did);
  }

  lemma UnnamedLast(row: Binding, made: seq<Made>, i: int, n: nat, owner: string, handle: string, did: string)
    requires n < |made| && !NamesHandle(made[n], owner, handle)
    requires ShowsLastBinding(row, made, i, n, owner, handle, did)
    ensures ShowsLastBinding(row, made, i, n + 1, owner, handle, did)
  {
    hide NamesHandle, TrimSpace, SeenAt;
  }

  lemma BoundTextStep(text: map<Column, string>, made: seq<Made>, n: nat, owner: string, handle: string, did: string)
    requires n < |made| && !Binds(made[n], owner, handle, did) && ShowsBoundText(text, made, n, owner, handle, did)
    ensures ShowsBoundText(text, made, n + 1, owner, handle, did)
  {
    hide IsLast, Binds, Given;
    forall c | c in {SourceType, SourceGroupID, Metadata}
      ensures IsLast(At(text, c), n + 1, BoundTextOf(made, owner, handle, did, c))
    {
      LastStep(At(text, c), n, BoundTextOf(made, owner, handle, did, c));
    }
  }

  lemma DemotedStep(before: Binding, after: Binding, made: seq<Made>, n: nat, owner: string, handle: string,
                    did: string)
    requires n < |made| && NamesHandle(made[n], owner, handle) && !Binds(made[n], owner, handle, did)
    requires ShowsBindings(before, made, n, owner, handle, did)
    requires after == before.(current := false, lastSeen :=
      if before.lastSeen < SeenAt(made[n]) then SeenAt(made[n]) else before.lastSeen)
    ensures ShowsBindings(after, made, n + 1, owner, handle, did)
  {
    hide ShowsBoundText, ShowsLastBinding, NamesHandle, SeenAt, IsFirstBinding;
    BoundTextStep(before.text, made, n, owner, handle, did);
    var i :| ShowsLastBinding(before, made, i, n, owner, handle, did);
    DemotedLast(before, after, made, i, n, owner, handle, did);
    var first :| first < n && ShowsFirstBinding(before, made, first, owner, handle, did);
    assert ShowsFirstBinding(after, made, first, owner, handle, did);
  }

  lemma DemotedLast(before: Binding, after: Binding, made: seq<Made>, i: int, n: nat, owner: string, handle: string,
                    did: string)
    requires n < |made| && NamesHandle(made[n], owner, handle) && !Binds(made[n], owner, handle, did)
    requires ShowsLastBinding(before, made, i, n, owner, handle, did)
    requires after == before.(current := false, lastSeen :=
      if before.lastSeen < SeenAt(made[n]) then SeenAt(made[n]) else before.lastSeen)
    ensures ShowsLastBinding(after, made, i, n + 1, owner, handle, did)
  {
    hide NamesHandle, TrimSpace, SeenAt;
  }

  lemma BoundStep(bindings: map<Owned<HandleDID>, Binding>, after: Binding, made: seq<Made>, n: nat, owner: string,
                  handle: string, did: string)
    requires n < |made| && Binds(made[n], owner, handle, did) && BindingsShow(bindings, made, n, owner, handle, did)
    requires var k, r := BindingKey(owner, handle, did), made[n].record;
      && after.current && after.lastSeen == SeenAt(made[n]) && after.credentialName == TrimSpace(r.credentialName)
      && after.firstSeen == (if k in bindings then bindings[k].firstSeen
                             else if r.firstSeen.Some? then r.firstSeen.value else made[n].now)
      && forall c :: At(after.text, c) ==
           if c in {SourceType, SourceGroupID, Metadata} && Given(r, c).Some? then Given(r, c)
           else if k in bindings then At(bindings[k].text, c) else None
    ensures ShowsBindings(after, made, n + 1, owner, handle, did)
  {
    hide IsLast, NamesHandle, TrimSpace, Given;
    var k := BindingKey(owner, handle, did);
    var before: map<Column, string> := if k in bindings then bindings[k].text else map[];
    forall c | c in {SourceType, SourceGroupID, Metadata}
      ensures IsLast(At(after.text, c), n + 1, BoundTextOf(made, owner, handle, did, c))
    {
      if k !in bindings {
        NoneBound(made, n, owner, handle, did, c);
      }
      LastStep(At(before, c), n, BoundTextOf(made, owner, handle, did, c));
    }
    forall c | c !in {SourceType, SourceGroupID, Metadata} ensures c !in after.text {
      assert At(after.text, c) == At(before, c);
    }
    if k in bindings {
      var first :| first < n && ShowsFirstBinding(bindings[k], made, first, owner, handle, did);
      assert ShowsFirstBinding(after, made, first, owner, handle, did);
    } else {
      assert ShowsFirstBinding(after, made, n, owner, handle, did);
    }
    assert ShowsLastBinding(after, made, n, n + 1, owner, handle, did);
  }

  lemma NoneBound(made: seq<Made>, n: nat, owner: string, handle: string, did: string, c: Column)
    requires n <= |made| && forall j | 0 <= j < n :: !Binds(made[j], owner, handle, did)
    ensures IsLast(None, n, BoundTextOf(made, owner, handle, did, c))
  {
    hide Binds, Given;
  }
}
