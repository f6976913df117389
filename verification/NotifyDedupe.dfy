// scripts/hermes_notify_adapter.py: the TTL dedupe cache, and the check / forward / remember order of
// the notification handler.
module NotifyDedupe {
  datatype Entry = Entry(key: string, expires: int)

  // A Python dict in insertion order: keys are distinct, and an assignment to a present key keeps its place.
  predicate DistinctKeys(store: seq<Entry>) {
    forall i, j | 0 <= i < j < |store| :: store[i].key != store[j].key
  }

  predicate HasKey(store: seq<Entry>, key: string) {
    exists i | 0 <= i < |store| :: store[i].key == key
  }

  // _cleanup_locked
  function Cleaned(store: seq<Entry>, now: int): seq<Entry> {
    if store == [] then []
    else if store[0].expires > now then [store[0]] + Cleaned(store[1..], now)
    else Cleaned(store[1..], now)
  }

  // store.get(key, 0.0)
  function Expiry(store: seq<Entry>, key: string): int {
    if store == [] then 0 else if store[0].key == key then store[0].expires else Expiry(store[1..], key)
  }

  // min over the items in order: the first entry with the smallest expiry.
  function Oldest(store: seq<Entry>): (i: nat)
    requires store != []
    ensures i < |store|
    ensures forall j | 0 <= j < |store| :: store[i].expires <= store[j].expires
    ensures forall j | 0 <= j < i :: store[i].expires < store[j].expires
  {
    if |store| == 1 then 0
    else
      var rest := Oldest(store[1..]);
      assert forall j | 0 < j < |store| :: store[j] == store[1..][j - 1];
      if store[1..][rest].expires < store[0].expires then rest + 1 else 0
  }

  function Remove(store: seq<Entry>, i: nat): seq<Entry>
    requires i < |store|
  {
    store[..i] + store[i + 1..]
  }

  // store[key] = expires
  function Put(store: seq<Entry>, key: string, expires: int): seq<Entry> {
    if store == [] then [Entry(key, expires)]
    else if store[0].key == key then [Entry(key, expires)] + store[1..]
    else [store[0]] + Put(store[1..], key, expires)
  }

  function Remembered(store: seq<Entry>, key: string, now: int, ttl: int, maxEntries: nat): seq<Entry> {
    var cleaned := Cleaned(store, now);
    var room := if |cleaned| >= maxEntries && cleaned != [] then Remove(cleaned, Oldest(cleaned)) else cleaned;
    Put(room, key, now + ttl)
  }

  // ---- Facts about the sequence operations ----

  lemma {:induction false} CleanedMembers(store: seq<Entry>, now: int)
    ensures |Cleaned(store, now)| <= |store|
    ensures forall e :: e in Cleaned(store, now) <==> e in store && e.expires > now
    decreases |store|
  {
    if store != [] {
      CleanedMembers(store[1..], now);
      assert store == [store[0]] + store[1..];
    }
  }

  lemma {:induction false} CleanedDistinct(store: seq<Entry>, now: int)
    requires DistinctKeys(store)
    ensures DistinctKeys(Cleaned(store, now))
    decreases |store|
  {
    if store != [] {
      var rest := Cleaned(store[1..], now);
      CleanedDistinct(store[1..], now);
      CleanedMembers(store[1..], now);
      forall j | 0 <= j < |rest| ensures rest[j].key != store[0].key {
        assert rest[j] in store[1..];
      }
    }
  }

  lemma CleanedKeeps(store: seq<Entry>, now: int)
    ensures |Cleaned(store, now)| <= |store|
    ensures forall e :: e in Cleaned(store, now) <==> e in store && e.expires > now
    ensures DistinctKeys(store) ==> DistinctKeys(Cleaned(store, now))
  {
    hide Cleaned, DistinctKeys;
    CleanedMembers(store, now);
    if DistinctKeys(store) {
      CleanedDistinct(store, now);
    }
  }

  lemma {:induction false} PutMembers(store: seq<Entry>, key: string, expires: int)
    requires DistinctKeys(store)
    ensures |Put(store, key, expires)| == |store| + if HasKey(store, key) then 0 else 1
    ensures forall e :: e in Put(store, key, expires) <==> e == Entry(key, expires) || (e in store && e.key != key)
    decreases |store|
  {
    if store != [] {
      assert store == [store[0]] + store[1..];
      PutMembers(store[1..], key, expires);
      KeyInTail(store, key);
      assert store[0].key == key ==> forall e | e in store[1..] :: e.key != key;
    }
  }

  lemma KeyInTail(store: seq<Entry>, key: string)
    requires store != []
    ensures HasKey(store, key) <==> store[0].key == key || HasKey(store[1..], key)
  {
    if HasKey(store[1..], key) {
      var i :| 0 <= i < |store[1..]| && store[1..][i].key == key;
      assert store[i + 1].key == key;
    }
  }

  lemma {:induction false} PutDistinct(store: seq<Entry>, key: string, expires: int)
    requires DistinctKeys(store)
    ensures DistinctKeys(Put(store, key, expires))
    decreases |store|
  {
    if store != [] && store[0].key != key {
      var rest := Put(store[1..], key, expires);
      PutDistinct(store[1..], key, expires);
      PutMembers(store[1..], key, expires);
      forall j | 0 <= j < |rest| ensures rest[j].key != store[0].key {
        assert rest[j] in rest;
      }
    }
  }

  lemma PutStores(store: seq<Entry>, key: string, expires: int)
    requires DistinctKeys(store)
    ensures DistinctKeys(Put(store, key, expires))
    ensures |Put(store, key, expires)| == |store| + if HasKey(store, key) then 0 else 1
    ensures forall e :: e in Put(store, key, expires) <==> e == Entry(key, expires) || (e in store && e.key != key)
  {
    hide DistinctKeys, HasKey, Put;
    PutMembers(store, key, expires);
    PutDistinct(store, key, expires);
  }

  lemma {:induction false} ExpiryOf(store: seq<Entry>, e: Entry)
    requires DistinctKeys(store) && e in store
    ensures Expiry(store, e.key) == e.expires
  {
    if store[0] != e {
      assert e in store[1..];
      ExpiryOf(store[1..], e);
    }
  }

  lemma {:induction false} NoExpiry(store: seq<Entry>, key: string)
    requires !HasKey(store, key)
    ensures Expiry(store, key) == 0
  {
    if store != [] {
      assert store[0].key != key;
      assert forall i | 0 <= i < |store[1..]| :: store[1..][i].key == store[i + 1].key;
      NoExpiry(store[1..], key);
    }
  }

  // ---- The cache against its history ----

  datatype Event = Event(key: string, time: int)

  // When each key was last remembered.
  function LastTimes(log: seq<Event>): map<string, int> {
    if log == [] then map[] else LastTimes(log[..|log| - 1])[log[|log| - 1].key := log[|log| - 1].time]
  }

  // The other keys remembered no earlier than k.
  function NoEarlier(last: map<string, int>, k: string): set<string>
    requires k in last
  {
    set x | x in last && x != k && last[x] >= last[k]
  }

  function Keys(store: seq<Entry>): set<string> {
    set e | e in store :: e.key
  }

  lemma {:induction false} KeyCount(store: seq<Entry>)
    requires DistinctKeys(store)
    ensures |Keys(store)| == |store|
  {
    if store != [] {
      KeyCount(store[1..]);
      assert store == [store[0]] + store[1..];
      assert Keys(store) == {store[0].key} + Keys(store[1..]);
      assert store[0].key !in Keys(store[1..]);
    }
  }

  lemma SubsetSize(a: set<string>, b: set<string>)
    requires a <= b
    ensures |a| <= |b|
  {
    assert b == a + (b - a);
    assert a !! (b - a);
  }

  ghost predicate Accurate(store: seq<Entry>, last: map<string, int>, ttl: int) {
    forall e | e in store :: e.key in last && e.expires == last[e.key] + ttl
  }

  // A key that is missing before its time was pushed out by maxEntries - 1 other keys.
  ghost predicate LostOnlyByPressure(store: seq<Entry>, last: map<string, int>, ttl: int, maxEntries: nat, now: int) {
    forall k | k in last && last[k] + ttl > now && k !in Keys(store) :: |NoEarlier(last, k)| >= maxEntries - 1
  }

  ghost predicate CacheInv(store: seq<Entry>, last: map<string, int>, ttl: int, maxEntries: nat, now: int) {
    && DistinctKeys(store) && |store| <= maxEntries
    && (forall k | k in last :: last[k] <= now)
    && Accurate(store, last, ttl)
    && LostOnlyByPressure(store, last, ttl, maxEntries, now)
  }

  lemma CleanKeepsInv(store: seq<Entry>, last: map<string, int>, ttl: int, maxEntries: nat, now: int, later: int)
    requires CacheInv(store, last, ttl, maxEntries, now) && now <= later
    ensures CacheInv(Cleaned(store, later), last, ttl, maxEntries, later)
  {
    CleanedKeeps(store, later);
    forall k | k in last && last[k] + ttl > later && k !in Keys(Cleaned(store, later))
      ensures |NoEarlier(last, k)| >= maxEntries - 1
    {
      forall e | e in store ensures e.key != k {
        assert e.key == k ==> e in Cleaned(store, later);
      }
    }
  }

  lemma EvictKeepsInv(store: seq<Entry>, last: map<string, int>, ttl: int, maxEntries: nat, now: int)
    requires CacheInv(store, last, ttl, maxEntries, now) && store != [] && |store| >= maxEntries
    ensures CacheInv(Remove(store, Oldest(store)), last, ttl, maxEntries, now)
    ensures |Remove(store, Oldest(store))| < maxEntries
  {
    var i := Oldest(store);
    var room, victim := Remove(store, i), store[i];
    RemoveKeepsOthers(store, i);
    VictimIsPushedOut(store, last, ttl, i);
    hide Remove, Oldest, DistinctKeys;
    forall k | k in last && last[k] + ttl > now && k !in Keys(room) ensures |NoEarlier(last, k)| >= maxEntries - 1 {
      if k != victim.key {
        forall e | e in store ensures e.key != k {
          assert e.key == k ==> e in room;
        }
      }
    }
  }

  lemma RemoveKeepsOthers(store: seq<Entry>, i: nat)
    requires DistinctKeys(store) && i < |store|
    ensures DistinctKeys(Remove(store, i)) && |Remove(store, i)| == |store| - 1
    ensures forall e :: e in Remove(store, i) <==> e in store && e != store[i]
  {
    assert store == store[..i] + [store[i]] + store[i + 1..];
  }

  // The entries that stay were all remembered no earlier than the one that goes.
  lemma VictimIsPushedOut(store: seq<Entry>, last: map<string, int>, ttl: int, i: nat)
    requires DistinctKeys(store) && Accurate(store, last, ttl)
    requires i < |store| && forall j | 0 <= j < |store| :: store[i].expires <= store[j].expires
    ensures store[i].key in last && |NoEarlier(last, store[i].key)| >= |store| - 1
  {
    var room, victim := Remove(store, i), store[i];
    RemoveKeepsOthers(store, i);
    KeyCount(room);
    forall k | k in Keys(room) ensures k in NoEarlier(last, victim.key) {
      var e :| e in room && e.key == k;
      assert e in store;
      var j :| 0 <= j < |store| && store[j] == e;
      assert victim.expires <= store[j].expires;
    }
    SubsetSize(Keys(room), NoEarlier(last, victim.key));
  }

  lemma PutKeepsInv(store: seq<Entry>, last: map<string, int>, ttl: int, maxEntries: nat, now: int, key: string)
    requires CacheInv(store, last, ttl, maxEntries, now) && |store| < maxEntries
    ensures CacheInv(Put(store, key, now + ttl), last[key := now], ttl, maxEntries, now)
  {
    hide Put, DistinctKeys, HasKey;
    var after, times := Put(store, key, now + ttl), last[key := now];
    PutStores(store, key, now + ttl);
    forall k | k in times && times[k] + ttl > now && k !in Keys(after) ensures |NoEarlier(times, k)| >= maxEntries - 1 {
      assert Entry(key, now + ttl) in after;
      assert k != key;
      forall e | e in store ensures e.key != k {
        assert e.key == k ==> e in after;
      }
      assert NoEarlier(last, k) <= NoEarlier(times, k);
      SubsetSize(NoEarlier(last, k), NoEarlier(times, k));
    }
  }

  class DedupeCache {
    const ttl: int
    const maxEntries: nat
    var store: seq<Entry>
    // Every remember() so far, and the time of the last call.
    ghost var log: seq<Event>
    ghost var clock: int

    ghost predicate Valid()
      reads this
    {
      ttl >= 1 && maxEntries >= 128 && CacheInv(store, LastTimes(log), ttl, maxEntries, clock)
    }

    constructor (ttlSeconds: int, entries: int)
      ensures Valid() && store == [] && log == [] && clock == 0
      ensures ttl == (if ttlSeconds > 1 then ttlSeconds else 1)
      ensures maxEntries == (if entries > 128 then entries else 128)
    {
      ttl := if ttlSeconds > 1 then ttlSeconds else 1;
      maxEntries := if entries > 128 then entries else 128;
      store, log, clock := [], [], 0;
    }

    // True only for a key remembered less than ttl ago; false for such a key only if maxEntries - 1
    // other keys have been remembered since.
    method IsDuplicate(key: string, now: int) returns (duplicate: bool)
      requires Valid() && 0 <= clock <= now
      modifies this
      ensures Valid() && clock == now && log == old(log)
      ensures store == Cleaned(old(store), now)
      ensures duplicate <==> key in Keys(store)
      ensures duplicate ==> key in LastTimes(log) && now - LastTimes(log)[key] < ttl
      ensures !duplicate && key in LastTimes(log) && now - LastTimes(log)[key] < ttl ==>
        |NoEarlier(LastTimes(log), key)| >= maxEntries - 1
    {
      CleanKeepsInv(store, LastTimes(log), ttl, maxEntries, clock, now);
      CleanedKeeps(store, now);
      store := Cleaned(store, now);
      clock := now;
      duplicate := Expiry(store, key) > now;
      if key in Keys(store) {
        ghost var e :| e in store && e.key == key;
        ExpiryOf(store, e);
      } else {
        assert forall i | 0 <= i < |store| :: store[i] in store;
        NoExpiry(store, key);
      }
    }

    method Remember(key: string, now: int)
      requires Valid() && 0 <= clock <= now
      modifies this
      ensures Valid() && clock == now && log == old(log) + [Event(key, now)]
      ensures store == Remembered(old(store), key, now, ttl, maxEntries)
    {
      hide CacheInv, Put, Remove, Oldest, Cleaned;
      ghost var last := LastTimes(log);
      CleanKeepsInv(store, last, ttl, maxEntries, clock, now);
      store := Cleaned(store, now);
      if |store| >= maxEntries {
        EvictKeepsInv(store, last, ttl, maxEntries, now);
        store := Remove(store, Oldest(store));
      }
      PutKeepsInv(store, last, ttl, maxEntries, now, key);
      store := Put(store, key, now + ttl);
      assert (log + [Event(key, now)])[..|log|] == log;
      log := log + [Event(key, now)];
      clock := now;
    }
  }
}
