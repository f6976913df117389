// _handle_notify of scripts/hermes_notify_adapter.py, for requests handled one after the other, and
// the event ring of scripts/host_notify_webhook_server.py.
module NotifyHandler {
  import opened NotifyDedupe

  // The last n elements.
  function Last<T>(xs: seq<T>, n: nat): seq<T> {
    if |xs| <= n then xs else xs[|xs| - n..]
  }

  ghost predicate Ascending(es: seq<Entry>) {
    forall i, j | 0 <= i < j < |es| :: es[i].expires <= es[j].expires
  }

  // On ascending entries, cleaning drops a prefix.
  lemma {:induction false} CleanedIsSuffix(es: seq<Entry>, now: int)
    requires Ascending(es)
    ensures |Cleaned(es, now)| <= |es|
    ensures Cleaned(es, now) == es[|es| - |Cleaned(es, now)|..]
    ensures |Cleaned(es, now)| < |es| ==> es[0].expires <= now
  {
    if es != [] {
      if es[0].expires > now {
        forall e | e in es ensures e.expires > now {
          var i :| 0 <= i < |es| && es[i] == e;
          assert i == 0 || es[0].expires <= es[i].expires;
        }
        AllKept(es, now);
      } else {
        CleanedIsSuffix(es[1..], now);
        var n := |Cleaned(es[1..], now)|;
        assert es[1..][|es| - 1 - n..] == es[|es| - n..];
      }
    }
  }

  lemma {:induction false} AllKept(es: seq<Entry>, now: int)
    requires forall e | e in es :: e.expires > now
    ensures Cleaned(es, now) == es
  {
    if es != [] {
      assert forall e | e in es[1..] :: e in es;
      AllKept(es[1..], now);
    }
  }

  lemma {:induction false} CleanedTwice(es: seq<Entry>, now: int, later: int)
    requires now <= later
    ensures Cleaned(Cleaned(es, now), later) == Cleaned(es, later)
  {
    if es != [] {
      CleanedTwice(es[1..], now, later);
      var rest := Cleaned(es[1..], now);
      if es[0].expires > now {
        assert ([es[0]] + rest)[1..] == rest;
      }
    }
  }

  lemma {:induction false} CleanedAppend(es: seq<Entry>, e: Entry, now: int)
    requires e.expires > now
    ensures Cleaned(es + [e], now) == Cleaned(es, now) + [e]
  {
    if es != [] {
      assert (es + [e])[1..] == es[1..] + [e];
      CleanedAppend(es[1..], e, now);
    }
  }

  lemma {:induction false} PutAppends(store: seq<Entry>, key: string, expires: int)
    requires forall e | e in store :: e.key != key
    ensures Put(store, key, expires) == store + [Entry(key, expires)]
  {
    if store != [] {
      assert forall e | e in store[1..] :: e in store;
      PutAppends(store[1..], key, expires);
    }
  }

  // Remembering a key that is not in the cache slides the window over all forwards: the store holds
  // the unexpired ones among the last maxEntries.
  lemma WindowSlides(all: seq<Entry>, store: seq<Entry>, key: string, now: int, ttl: int, maxEntries: nat)
    requires Ascending(all) && maxEntries > 0 && ttl > 0
    requires store == Cleaned(Last(all, maxEntries), now)
    requires forall e | e in store :: e.key != key
    ensures Remembered(store, key, now, ttl, maxEntries) ==
      Cleaned(Last(all + [Entry(key, now + ttl)], maxEntries), now)
  {
    CleanedTwice(Last(all, maxEntries), now, now);
    if |store| >= maxEntries {
      FullWindowDropsFirst(all, store, Entry(key, now + ttl), now, maxEntries);
    } else {
      WindowHasRoom(all, store, Entry(key, now + ttl), now, maxEntries);
    }
    PutInto(store, key, now, ttl, maxEntries);
    hide Cleaned, Last, Ascending, Remembered;
  }

  lemma PutInto(store: seq<Entry>, key: string, now: int, ttl: int, maxEntries: nat)
    requires maxEntries > 0 && Cleaned(store, now) == store && forall e | e in store :: e.key != key
    requires |store| >= maxEntries ==> Oldest(store) == 0
    ensures Remembered(store, key, now, ttl, maxEntries) ==
      (if |store| >= maxEntries then store[1..] else store) + [Entry(key, now + ttl)]
  {
    hide Cleaned, Oldest, Put;
    if |store| >= maxEntries {
      assert Remove(store, 0) == store[1..];
      assert forall e | e in store[1..] :: e in store;
      PutAppends(store[1..], key, now + ttl);
    } else {
      PutAppends(store, key, now + ttl);
    }
  }

  lemma LastAppend(all: seq<Entry>, e: Entry, n: nat)
    requires n > 0
    ensures Last(all + [e], n) == (if |all| < n then all else Last(all, n)[1..]) + [e]
  {
  }

  lemma AscendingAppend(all: seq<Entry>, e: Entry)
    requires Ascending(all) && forall x | x in all :: x.expires <= e.expires
    ensures Ascending(all + [e])
  {
    forall i, j | 0 <= i < j < |all + [e]| ensures (all + [e])[i].expires <= (all + [e])[j].expires {
      assert all[i] in all;
    }
  }

  lemma FullWindow(all: seq<Entry>, now: int, maxEntries: nat)
    requires Ascending(all) && |Cleaned(Last(all, maxEntries), now)| >= maxEntries
    ensures Cleaned(Last(all, maxEntries), now) == Last(all, maxEntries)
    ensures |Last(all, maxEntries)| == maxEntries && Ascending(Last(all, maxEntries))
  {
    assert Ascending(Last(all, maxEntries));
    CleanedIsSuffix(Last(all, maxEntries), now);
  }

  lemma FirstIsOldest(store: seq<Entry>)
    requires Ascending(store) && store != []
    ensures Oldest(store) == 0
  {
    assert forall j | 0 < j < |store| :: store[0].expires <= store[j].expires;
  }

  lemma FullWindowDropsFirst(all: seq<Entry>, store: seq<Entry>, e: Entry, now: int, maxEntries: nat)
    requires Ascending(all) && maxEntries > 0 && e.expires > now
    requires store == Cleaned(Last(all, maxEntries), now) && |store| >= maxEntries
    ensures Oldest(store) == 0
    ensures store[1..] + [e] == Cleaned(Last(all + [e], maxEntries), now)
  {
    FullWindow(all, now, maxEntries);
    FirstIsOldest(store);
    LastAppend(all, e, maxEntries);
    CleanedKeeps(Last(all, maxEntries), now);
    hide Cleaned, Last, Oldest;
    assert forall x | x in store[1..] :: x in store;
    AllKept(store[1..], now);
    CleanedAppend(store[1..], e, now);
  }

  lemma WindowHasRoom(all: seq<Entry>, store: seq<Entry>, e: Entry, now: int, maxEntries: nat)
    requires Ascending(all) && maxEntries > 0 && e.expires > now
    requires store == Cleaned(Last(all, maxEntries), now) && |store| < maxEntries
    ensures store + [e] == Cleaned(Last(all + [e], maxEntries), now)
  {
    var window := Last(all, maxEntries);
    assert Ascending(window);
    CleanedIsSuffix(window, now);
    CleanedAppend(window, e, now);
    if |window| < maxEntries {
      assert Last(all + [e], maxEntries) == window + [e];
    } else {
      assert Last(all + [e], maxEntries) == window[1..] + [e];
      CleanedAppend(window[1..], e, now);
    }
  }

  datatype Answer = Duplicate | Forwarded | UpstreamFailed

  ghost function Expiries(events: seq<Event>, ttl: int): (es: seq<Entry>)
    ensures |es| == |events|
    ensures forall i | 0 <= i < |es| :: es[i] == Entry(events[i].key, events[i].time + ttl)
  {
    seq(|events|, i requires 0 <= i < |events| => Entry(events[i].key, events[i].time + ttl))
  }

  // Forwarded successfully less than ttl ago, and among the last maxEntries successful forwards.
  ghost predicate RecentlyForwarded(forwards: seq<Event>, ttl: int, maxEntries: nat, id: string, now: int) {
    exists i | 0 <= i < |forwards| && i >= |forwards| - maxEntries ::
      forwards[i].key == id && now - forwards[i].time < ttl
  }

  lemma WindowMembers(forwards: seq<Event>, ttl: int, maxEntries: nat, now: int, id: string)
    ensures id in Keys(Cleaned(Last(Expiries(forwards, ttl), maxEntries), now))
      <==> RecentlyForwarded(forwards, ttl, maxEntries, id, now)
  {
    hide Cleaned, DistinctKeys, Last;
    var all := Expiries(forwards, ttl);
    var window := Last(all, maxEntries);
    LastIndices(all, maxEntries);
    CleanedKeys(window, now, id);
    if j :| 0 <= j < |window| && window[j].key == id && window[j].expires > now {
      assert window[j] == all[j + (|all| - |window|)];
    }
    if i :|
      0 <= i < |forwards| && i >= |forwards| - maxEntries && forwards[i].key == id && now - forwards[i].time < ttl
    {
      assert window[i - (|all| - |window|)] == all[i];
    }
  }

  lemma CleanedKeys(window: seq<Entry>, now: int, id: string)
    ensures id in Keys(Cleaned(window, now))
      <==> exists j | 0 <= j < |window| :: window[j].key == id && window[j].expires > now
  {
    hide Cleaned, DistinctKeys;
    CleanedKeeps(window, now);
    if j :| 0 <= j < |window| && window[j].key == id && window[j].expires > now {
      assert window[j] in Cleaned(window, now);
    }
  }

  lemma LastIndices(all: seq<Entry>, n: nat)
    ensures |Last(all, n)| == (if |all| < n then |all| else n)
    ensures forall j | 0 <= j < |Last(all, n)| :: Last(all, n)[j] == all[j + (|all| - |Last(all, n)|)]
  {}

  class Adapter {
    const cache: DedupeCache
    // Every successful forward, with the time its key was remembered.
    ghost var forwards: seq<Event>

    ghost predicate Valid()
      reads this, cache
    {
      && cache.Valid() && cache.clock >= 0
      && (forall e | e in forwards :: e.time <= cache.clock)
      && Ascending(Expiries(forwards, cache.ttl))
      && cache.store == Cleaned(Last(Expiries(forwards, cache.ttl), cache.maxEntries), cache.clock)
    }

    constructor (ttlSeconds: int, entries: int)
      ensures Valid() && fresh(cache) && forwards == []
    {
      cache := new DedupeCache(ttlSeconds, entries);
      forwards := [];
    }

    // checked and remembered are the two readings of the clock.
    method HandleNotify(id: string, checked: int, accepts: bool, remembered: int) returns (answer: Answer)
      requires Valid() && cache.clock <= checked <= remembered
      modifies this, cache
      ensures Valid()
      ensures answer == Duplicate <==> RecentlyForwarded(old(forwards), cache.ttl, cache.maxEntries, id, checked)
      ensures answer != Duplicate ==> answer == if accepts then Forwarded else UpstreamFailed
      ensures forwards == old(forwards) + if answer == Forwarded then [Event(id, remembered)] else []
    {
      hide CacheInv, Cleaned, Last, Ascending, Remembered;
      ghost var all := Expiries(forwards, cache.ttl);
      CleanedTwice(Last(all, cache.maxEntries), cache.clock, checked);
      WindowMembers(forwards, cache.ttl, cache.maxEntries, checked, id);
      var duplicate := cache.IsDuplicate(id, checked);
      if duplicate {
        return Duplicate;
      }
      if !accepts {
        return UpstreamFailed;
      }
      ForwardSlides(forwards, cache.store, id, checked, remembered, cache.ttl, cache.maxEntries);
      cache.Remember(id, remembered);
      forwards := forwards + [Event(id, remembered)];
      answer := Forwarded;
    }
  }

  lemma ForwardSlides(forwards: seq<Event>, store: seq<Entry>, id: string, checked: int, remembered: int, ttl: int,
                      maxEntries: nat)
    requires ttl > 0 && maxEntries > 0 && checked <= remembered
    requires Ascending(Expiries(forwards, ttl)) && forall e | e in forwards :: e.time <= checked
    requires store == Cleaned(Last(Expiries(forwards, ttl), maxEntries), checked) && id !in Keys(store)
    ensures var after := Expiries(forwards + [Event(id, remembered)], ttl);
      && Ascending(after)
      && Remembered(store, id, remembered, ttl, maxEntries) == Cleaned(Last(after, maxEntries), remembered)
  {
    hide Cleaned, Last, Ascending, Put, Remove, Oldest, DistinctKeys;
    var all, cleaned := Expiries(forwards, ttl), Cleaned(store, remembered);
    var e := Entry(id, remembered + ttl);
    ForwardAppends(forwards, id, checked, remembered, ttl);
    CleanedKeeps(store, remembered);
    CleanedTwice(Last(all, maxEntries), checked, remembered);
    CleanedTwice(store, remembered, remembered);
    assert Remembered(store, id, remembered, ttl, maxEntries) == Remembered(cleaned, id, remembered, ttl, maxEntries);
    forall x | x in cleaned ensures x.key != id {
      assert x in store;
    }
    WindowSlides(all, cleaned, id, remembered, ttl, maxEntries);
  }

  lemma ForwardAppends(forwards: seq<Event>, id: string, checked: int, remembered: int, ttl: int)
    requires checked <= remembered && Ascending(Expiries(forwards, ttl)) && forall e | e in forwards ::
      e.time <= checked
    ensures var e := Entry(id, remembered + ttl);
      Expiries(forwards + [Event(id, remembered)], ttl) == Expiries(forwards, ttl) + [e]
      && Ascending(Expiries(forwards, ttl) + [e])
      && forall x | x in Expiries(forwards, ttl) :: x.expires <= e.expires
  {
    hide Ascending;
    var all, e := Expiries(forwards, ttl), Entry(id, remembered + ttl);
    assert Expiries(forwards + [Event(id, remembered)], ttl) == all + [e];
    forall x | x in all ensures x.expires <= e.expires {
      var i :| 0 <= i < |all| && all[i] == x;
      assert forwards[i] in forwards;
    }
    AscendingAppend(all, e);
  }

  // After an attempt that was not answered as a duplicate and was not forwarded, the id is no duplicate
  // at any later check, whatever other ids have been forwarded in between.
  lemma FailedForwardStaysRetryable(forwards: seq<Event>, more: seq<Event>, ttl: int, maxEntries: nat, id: string,
                                    checked: int, later: int)
    requires !RecentlyForwarded(forwards, ttl, maxEntries, id, checked) && checked <= later
    requires forall e | e in more :: e.key != id
    ensures !RecentlyForwarded(forwards + more, ttl, maxEntries, id, later)
  {
    var all := forwards + more;
    assert forall j | 0 <= j < |more| :: all[|forwards| + j] == more[j] && more[j].key != id;
    assert forall i | |forwards| <= i < |all| :: all[i] == more[i - |forwards|];
    assert forall i | 0 <= i < |forwards| :: all[i] == forwards[i];
  }

  // After a successful forward the id is a duplicate exactly until its time is up or maxEntries other
  // ids have been forwarded.
  lemma ForwardStaysDuplicate(forwards: seq<Event>, more: seq<Event>, ttl: int, maxEntries: nat, id: string,
                              remembered: int, later: int)
    requires forall e | e in forwards :: e.time <= remembered
    requires forall e | e in more :: e.key != id
    ensures RecentlyForwarded(forwards + [Event(id, remembered)] + more, ttl, maxEntries, id, later)
      <==> later - remembered < ttl && |more| < maxEntries
  {
    var all := forwards + [Event(id, remembered)] + more;
    assert all[|forwards|] == Event(id, remembered);
    assert forall j | 0 <= j < |more| :: more[j].key != id;
    assert forall i | |forwards| < i < |all| :: all[i] == more[i - |forwards| - 1];
    assert forall i | 0 <= i < |forwards| :: all[i] == forwards[i] && forwards[i] in forwards;
  }

  // ---- The event ring ----

  class EventRing<T> {
    const capacity: int
    var events: seq<T>
    ghost var history: seq<T>

    // A negative capacity behaves like zero.
    ghost function Room(): nat {
      if capacity < 0 then 0 else capacity
    }

    ghost predicate Valid()
      reads this
    {
      events == Last(history, Room())
    }

    constructor (capacity: int)
      ensures Valid() && history == [] && this.capacity == capacity
    {
      this.capacity := capacity;
      events, history := [], [];
    }

    method AppendEvent(event: T)
      requires Valid()
      modifies this
      ensures Valid() && history == old(history) + [event]
    {
      events := events + [event];
      if |events| > capacity {
        var overflow := |events| - capacity;
        // del events[:overflow] deletes everything when overflow exceeds the length.
        events := if overflow >= |events| then [] else events[overflow..];
      }
      history := history + [event];
    }

    // The newest events, oldest first: as many as asked for and kept.
    method ListEvents(limit: int) returns (listed: seq<T>)
      requires Valid()
      ensures listed == Last(history, if limit <= 0 then 0 else if limit < Room() then limit else Room())
    {
      if limit <= 0 {
        return [];
      }
      listed := Last(events, limit);
    }
  }
}
