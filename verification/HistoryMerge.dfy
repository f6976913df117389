// Merging cached and remote messages: mergeDirectHistoryMessages and limitMessages of
// internal/message/service.go, mergeInboxMessages of internal/message/group_service.go.
module HistoryMerge {
  import opened Wrappers
  import opened Text
  import opened Sorting

  // A message view; the body stands for the fields merging does not look at.
  datatype Message = Message(
    id: string, msgID: string, clientMsgID: string, serverSeq: Option<int>,
    sentAt: string, createdAt: string, storedAt: string, body: string)

  // messageIdentity
  function Identity(m: Message): string {
    if m.id != "" then m.id else if m.msgID != "" then m.msgID else m.clientMsgID
  }

  // messageSortTime
  function SortTime(m: Message): string {
    if m.sentAt != "" then m.sentAt else if m.createdAt != "" then m.createdAt else m.storedAt
  }

  function Seq(m: Message): int {
    m.serverSeq.GetOr(0)
  }

  function Limit<T>(xs: seq<T>, limit: int): seq<T> {
    if limit <= 0 || |xs| <= limit then xs else xs[..limit]
  }

  // Newest first: by server sequence, then time, then id, all descending.
  predicate Newer(a: Message, b: Message) {
    if Seq(a) != Seq(b) then Seq(a) > Seq(b)
    else if SortTime(a) != SortTime(b) then Less(SortTime(b), SortTime(a))
    else Less(Identity(b), Identity(a))
  }

  predicate NotOlder(a: Message, b: Message) {
    !Newer(b, a)
  }

  lemma NotOlderIsPreorder()
    ensures Preorder(NotOlder)
  {
    forall a, b ensures NotOlder(a, b) || NotOlder(b, a) {
      LessIsTotal(SortTime(a), SortTime(b));
      LessIsTotal(Identity(a), Identity(b));
    }
    forall a, b, c | NotOlder(a, b) && NotOlder(b, c) ensures NotOlder(a, c) {
      NotOlderTransitive(a, b, c);
    }
  }

  lemma NotOlderTransitive(a: Message, b: Message, c: Message)
    requires NotOlder(a, b) && NotOlder(b, c)
    ensures NotOlder(a, c)
  {
    if Seq(a) == Seq(b) == Seq(c) {
      var x, y, z := SortTime(a), SortTime(b), SortTime(c);
      LessIsTotal(x, y);
      LessIsTotal(y, z);
      LessTransitive(z, y, x);
      if x == y == z {
        LessTransitive(Identity(c), Identity(b), Identity(a));
      }
    }
  }

  function FirstGiven(one: string, two: string, three: string): string {
    if one != "" then one else if two != "" then two else three
  }

  // The order on the fields: the higher sequence number first, none counting as 0; then the later time, by its
  // letters; then the greater id.
  lemma NotOlderByFields(a: Message, b: Message)
    ensures NotOlder(a, b) <==>
      var s := if a.serverSeq.Some? then a.serverSeq.value else 0;
      var t := if b.serverSeq.Some? then b.serverSeq.value else 0;
      var x, y := FirstGiven(a.sentAt, a.createdAt, a.storedAt), FirstGiven(b.sentAt, b.createdAt, b.storedAt);
      s > t || (s == t && (Less(y, x) || (x == y && !Less(FirstGiven(a.id, a.msgID, a.clientMsgID),
                                                         FirstGiven(b.id, b.msgID, b.clientMsgID)))))
  {
    hide Less;
    LessIsTotal(SortTime(a), SortTime(b));
    LessIsTotal(Identity(a), Identity(b));
  }

  // ---- Removing duplicates ----

  // The key a message without an id is given: its position in the merged list.
  function Synthetic(n: nat): string {
    "idx:" + Decimal(n)
  }

  ghost predicate IsSynthetic(id: string) {
    exists n: nat :: id == Synthetic(n)
  }

  datatype Dedup = Dedup(merged: seq<Message>, seen: set<string>)

  // One turn of the loop.
  function Take(d: Dedup, m: Message): Dedup {
    var id := if Identity(m) == "" then Synthetic(|d.merged|) else Identity(m);
    if id in d.seen then d else Dedup(d.merged + [m], d.seen + {id})
  }

  function TakeAll(xs: seq<Message>): Dedup {
    if xs == [] then Dedup([], {}) else Take(TakeAll(xs[..|xs| - 1]), xs[|xs| - 1])
  }

  method MergeDirectHistory(remote: seq<Message>, cached: seq<Message>, limit: int) returns (r: seq<Message>)
    ensures remote == [] ==> r == Limit(cached, limit)
    ensures remote != [] && cached == [] ==> r == remote
    ensures remote != [] && cached != [] ==> r == Limit(StableSort(TakeAll(cached + remote).merged, NotOlder), limit)
  {
    if remote == [] {
      return Limit(cached, limit);
    }
    if cached == [] {
      return remote;
    }
    var merged := RemoveDuplicates(cached + remote);
    r := Limit(StableSort(merged, NotOlder), limit);
  }

  method RemoveDuplicates(all: seq<Message>) returns (merged: seq<Message>)
    ensures merged == TakeAll(all).merged
  {
    merged := [];
    var seen: set<string> := {};
    for i := 0 to |all|
      invariant Dedup(merged, seen) == TakeAll(all[..i])
    {
      assert all[..i + 1][..i] == all[..i];
      var id := Identity(all[i]);
      if id == "" {
        id := Synthetic(|merged|);
      }
      if id in seen {
        continue;
      }
      seen := seen + {id};
      merged := merged + [all[i]];
    }
    assert all[..|all|] == all;
  }

  // ---- The specification ----

  // Message i is the first with its id, or has none.
  predicate IsFirst(xs: seq<Message>, i: nat)
    requires i < |xs|
  {
    Identity(xs[i]) == "" || forall j | 0 <= j < i :: Identity(xs[j]) != Identity(xs[i])
  }

  function Firsts(xs: seq<Message>): seq<Message> {
    if xs == [] then []
    else Firsts(xs[..|xs| - 1]) + if IsFirst(xs, |xs| - 1) then [xs[|xs| - 1]] else []
  }

  // The keys the loop has seen after the messages xs.
  ghost predicate SeenAre(d: Dedup, xs: seq<Message>) {
    forall id :: id in d.seen <==> Occurs(xs, id) || Numbered(d.merged, id)
  }

  // A real id that is also the key of a message without an id.
  ghost predicate Collides(xs: seq<Message>) {
    exists k: nat | k < |Firsts(xs)| :: Identity(Firsts(xs)[k]) == "" && Occurs(xs, Synthetic(k))
  }

  lemma NoSyntheticIdNoCollision(xs: seq<Message>)
    requires forall m | m in xs :: !IsSynthetic(Identity(m))
    ensures !Collides(xs)
  {
    forall k: nat ensures !Occurs(xs, Synthetic(k)) {
      hide Synthetic;
      assert forall i | 0 <= i < |xs| :: xs[i] in xs;
    }
  }

  // The loop drops exactly the messages whose id has occurred before, so that no message without an id
  // is merged away, if and only if no real id collides with a key it makes up.
  lemma DedupIsFirsts(xs: seq<Message>)
    ensures TakeAll(xs).merged == Firsts(xs) <==> !Collides(xs)
  {
    if Collides(xs) {
      CollisionLoses(xs);
    } else {
      NoCollisionKeeps(xs);
    }
  }

  lemma {:induction false} NoCollisionKeeps(xs: seq<Message>)
    requires !Collides(xs)
    ensures TakeAll(xs).merged == Firsts(xs)
  {
    if xs != [] {
      var before, m := xs[..|xs| - 1], xs[|xs| - 1];
      assert xs == before + [m];
      CollidesStep(before, m);
      NoCollisionKeeps(before);
      SeenInvariant(before);
      TakeStep(TakeAll(before), before, m);
    }
  }

  // Once the loop has dropped a message the specification keeps, it never catches up.
  lemma {:induction false} CollisionLoses(xs: seq<Message>)
    ensures |TakeAll(xs).merged| <= |Firsts(xs)|
    ensures Collides(xs) ==> |TakeAll(xs).merged| < |Firsts(xs)|
    ensures |TakeAll(xs).merged| == |Firsts(xs)| ==> TakeAll(xs).merged == Firsts(xs)
  {
    if xs != [] {
      var before, m := xs[..|xs| - 1], xs[|xs| - 1];
      assert xs == before + [m];
      CollidesStep(before, m);
      CollisionLoses(before);
      SeenInvariant(before);
      TakeStep(TakeAll(before), before, m);
    }
  }

  lemma {:induction false} SeenInvariant(xs: seq<Message>)
    ensures SeenAre(TakeAll(xs), xs)
  {
    if xs != [] {
      var before, m := xs[..|xs| - 1], xs[|xs| - 1];
      assert xs == before + [m];
      SeenInvariant(before);
      SeenStep(TakeAll(before), before, m);
    }
  }

  lemma SeenStep(d: Dedup, before: seq<Message>, m: Message)
    requires SeenAre(d, before)
    ensures SeenAre(Take(d, m), before + [m])
  {
    hide Synthetic;
    var xs, t := before + [m], Take(d, m);
    forall id ensures id in t.seen <==> Occurs(xs, id) || Numbered(t.merged, id) {
      assert id in d.seen <==> Occurs(before, id) || Numbered(d.merged, id);
      OccursStep(before, m, id);
      NumberedStep(d.merged, m, id);
    }
  }

  // The key of the next message, and whether it would collide.
  ghost predicate Clashes(merged: seq<Message>, before: seq<Message>, m: Message) {
    if Identity(m) == "" then Occurs(before, Synthetic(|merged|))
    else IsFirst(before + [m], |before|) && Numbered(merged, Identity(m))
  }

  lemma TakeStep(d: Dedup, before: seq<Message>, m: Message)
    requires SeenAre(d, before)
    ensures Take(d, m).merged == d.merged +
      if IsFirst(before + [m], |before|) && !Clashes(d.merged, before, m) then [m] else []
  {
    var xs := before + [m];
    forall k: nat ensures Synthetic(k) == Synthetic(|d.merged|) ==> k == |d.merged| {
      SyntheticInjective(k, |d.merged|);
    }
    hide Synthetic;
    assert !Numbered(d.merged, Synthetic(|d.merged|));
    FirstUnlessOccurs(before, m);
  }

  lemma CollidesStep(before: seq<Message>, m: Message)
    ensures Collides(before + [m]) <==> Collides(before) || Clashes(Firsts(before), before, m)
  {
    FirstsStep(before, m);
    CollisionComesFrom(before, m);
    CollisionStays(before, m);
  }

  lemma FirstsStep(before: seq<Message>, m: Message)
    ensures Firsts(before + [m]) == Firsts(before) + if IsFirst(before + [m], |before|) then [m] else []
  {
    var xs := before + [m];
    assert xs[..|before|] == before && xs[|before|] == m;
  }

  lemma CollisionComesFrom(before: seq<Message>, m: Message)
    requires Firsts(before + [m]) == Firsts(before) + if IsFirst(before + [m], |before|) then [m] else []
    ensures Collides(before + [m]) ==> Collides(before) || Clashes(Firsts(before), before, m)
  {
    if Collides(before + [m]) {
      var k: nat :| k < |Firsts(before + [m])| && Identity(Firsts(before + [m])[k]) == ""
        && Occurs(before + [m], Synthetic(k));
      CollisionAt(before, m, k);
    }
  }

  lemma CollisionAt(before: seq<Message>, m: Message, k: nat)
    requires Firsts(before + [m]) == Firsts(before) + if IsFirst(before + [m], |before|) then [m] else []
    requires k < |Firsts(before + [m])| && Identity(Firsts(before + [m])[k]) == "" && Occurs(before + [m], Synthetic(k))
    ensures Collides(before) || Clashes(Firsts(before), before, m)
  {
    hide Synthetic, Firsts, IsFirst, Occurs;
    var fs := Firsts(before);
    OccursStep(before, m, Synthetic(k));
    if k == |fs| {
      assert Identity(m) == "";
    } else {
      assert Identity(fs[k]) == "";
      if !Occurs(before, Synthetic(k)) {
        FirstUnlessOccurs(before, m);
        assert Numbered(fs, Identity(m));
      }
    }
  }

  lemma CollisionStays(before: seq<Message>, m: Message)
    requires Firsts(before + [m]) == Firsts(before) + if IsFirst(before + [m], |before|) then [m] else []
    ensures Collides(before) || Clashes(Firsts(before), before, m) ==> Collides(before + [m])
  {
    hide Synthetic, Firsts, IsFirst, Occurs;
    var xs := before + [m];
    NoIdIsFirst(before, m);
    forall k: nat ensures Occurs(xs, Synthetic(k)) <==> Occurs(before, Synthetic(k)) || Identity(m) == Synthetic(k) {
      OccursStep(before, m, Synthetic(k));
      SyntheticNotEmpty(k);
    }
  }

  lemma NoIdIsFirst(before: seq<Message>, m: Message)
    ensures Identity(m) == "" ==> IsFirst(before + [m], |before|)
  {}

  lemma SyntheticNotEmpty(k: nat)
    ensures Synthetic(k) != ""
  {
  }

  lemma FirstUnlessOccurs(before: seq<Message>, m: Message)
    ensures Identity(m) != "" ==> (IsFirst(before + [m], |before|) <==> !Occurs(before, Identity(m)))
  {
    var xs := before + [m];
    assert xs[|before|] == m && forall i | 0 <= i < |before| :: xs[i] == before[i];
  }

  ghost predicate Occurs(xs: seq<Message>, id: string) {
    id != "" && exists i | 0 <= i < |xs| :: Identity(xs[i]) == id
  }

  ghost predicate Numbered(merged: seq<Message>, id: string) {
    exists k: nat | k < |merged| :: Identity(merged[k]) == "" && id == Synthetic(k)
  }

  lemma OccursStep(before: seq<Message>, m: Message, id: string)
    ensures Occurs(before + [m], id) <==> Occurs(before, id) || (id != "" && Identity(m) == id)
  {
    var xs := before + [m];
    assert xs[|before|] == m;
    assert forall i | 0 <= i < |before| :: xs[i] == before[i];
  }

  lemma NumberedStep(merged: seq<Message>, m: Message, id: string)
    ensures Numbered(merged + [m], id) <==> Numbered(merged, id) || (Identity(m) == "" && id == Synthetic(|merged|))
  {
    hide Synthetic;
    var xs := merged + [m];
    assert xs[|merged|] == m;
    assert forall i | 0 <= i < |merged| :: xs[i] == merged[i];
  }

  lemma SyntheticInjective(k: nat, n: nat)
    ensures Synthetic(k) == Synthetic(n) ==> k == n
  {
    if Synthetic(k) == Synthetic(n) {
      assert Synthetic(k)[4..] == Decimal(k) && Synthetic(n)[4..] == Decimal(n);
      DecimalInjective(k, n);
    }
  }

  ghost predicate OccursFirst(xs: seq<Message>, m: Message) {
    exists i: nat | i < |xs| :: xs[i] == m && IsFirst(xs, i)
  }

  lemma {:induction false} FirstsAre(xs: seq<Message>)
    ensures forall m :: m in Firsts(xs) <==> OccursFirst(xs, m)
  {
    if xs != [] {
      var before, last := xs[..|xs| - 1], xs[|xs| - 1];
      FirstsAre(before);
      assert xs == before + [last];
      forall m ensures m in Firsts(xs) <==> OccursFirst(xs, m) {
        OccursFirstStep(before, last, m);
        hide OccursFirst, IsFirst;
      }
    }
  }

  lemma OccursFirstStep(before: seq<Message>, last: Message, m: Message)
    ensures OccursFirst(before + [last], m) <==>
      OccursFirst(before, m) || (m == last && IsFirst(before + [last], |before|))
  {
    hide Identity;
    var xs := before + [last];
    assert xs[|before|] == last;
    assert forall i: nat | i < |before| :: xs[i] == before[i];
  }

  predicate IdsDistinct(xs: seq<Message>) {
    forall i, j | 0 <= i < j < |xs| :: Identity(xs[i]) != "" ==> Identity(xs[i]) != Identity(xs[j])
  }

  lemma {:induction false} FirstsDistinct(xs: seq<Message>)
    ensures IdsDistinct(Firsts(xs))
  {
    if xs != [] {
      var before, last := xs[..|xs| - 1], xs[|xs| - 1];
      FirstsDistinct(before);
      FirstsAre(before);
      var fs := Firsts(before);
      forall i | 0 <= i < |fs| && IsFirst(xs, |before|) && Identity(fs[i]) != ""
        ensures Identity(fs[i]) != Identity(last) {
        assert fs[i] in fs;
        assert OccursFirst(before, fs[i]);
        var k: nat :| k < |before| && before[k] == fs[i];
        assert xs[k] == fs[i];
      }
    }
  }

  // The merged history, for a non-empty cache, a non-empty answer and no synthetic ids: the newest
  // messages of the deduplicated union, in order.
  ghost predicate IsNewestOf(r: seq<Message>, union: seq<Message>, limit: int) {
    var kept := Firsts(union);
    && Sorted(r, NotOlder)
    && |r| == (if limit <= 0 || |kept| <= limit then |kept| else limit)
    && (exists dropped: seq<Message> :: multiset(r) + multiset(dropped) == multiset(kept)
          && forall x, y | x in r && y in dropped :: NotOlder(x, y))
    && IdsDistinct(r)
  }

  lemma MergedHistoryIsNewest(remote: seq<Message>, cached: seq<Message>, limit: int)
    requires !Collides(cached + remote)
    ensures IsNewestOf(Limit(StableSort(TakeAll(cached + remote).merged, NotOlder), limit), cached + remote, limit)
  {
    var kept := Firsts(cached + remote);
    var ordered := StableSort(kept, NotOlder);
    DedupIsFirsts(cached + remote);
    FirstsDistinct(cached + remote);
    NotOlderIsPreorder();
    SortSorts(kept, NotOlder);
    SortPermutes(kept, NotOlder);
    DistinctAfterSort(kept, ordered);
    NewestAreFirst(kept, ordered, limit);
  }

  // In particular when no message has an id of the form idx:N.
  lemma OrdinaryHistoryIsNewest(remote: seq<Message>, cached: seq<Message>, limit: int)
    requires forall m | m in cached + remote :: !IsSynthetic(Identity(m))
    ensures IsNewestOf(Limit(StableSort(TakeAll(cached + remote).merged, NotOlder), limit), cached + remote, limit)
  {
    hide IsNewestOf, TakeAll, Collides, IsSynthetic, StableSort;
    NoSyntheticIdNoCollision(cached + remote);
    MergedHistoryIsNewest(remote, cached, limit);
  }

  lemma NewestAreFirst(kept: seq<Message>, ordered: seq<Message>, limit: int)
    requires multiset(ordered) == multiset(kept) && Sorted(ordered, NotOlder)
    ensures var r := Limit(ordered, limit);
      && Sorted(r, NotOlder)
      && |r| == (if limit <= 0 || |kept| <= limit then |kept| else limit)
      && exists dropped: seq<Message> :: multiset(r) + multiset(dropped) == multiset(kept)
           && forall x, y | x in r && y in dropped :: NotOlder(x, y)
  {
    hide NotOlder;
    SameElements(ordered, kept);
    var r := Limit(ordered, limit);
    var dropped := ordered[|r|..];
    assert ordered == r + dropped;
    assert multiset(r) + multiset(dropped) == multiset(kept);
    forall x, y | x in r && y in dropped ensures NotOlder(x, y) {
      var i :| 0 <= i < |r| && r[i] == x;
      var j :| 0 <= j < |dropped| && dropped[j] == y;
      assert ordered[i] == x && ordered[|r| + j] == y;
    }
  }

  lemma DistinctAfterSort(xs: seq<Message>, ys: seq<Message>)
    requires multiset(xs) == multiset(ys) && IdsDistinct(xs)
    ensures IdsDistinct(ys)
  {
    forall i, j | 0 <= i < j < |ys| && Identity(ys[i]) != "" ensures Identity(ys[i]) != Identity(ys[j]) {
      if Identity(ys[i]) == Identity(ys[j]) {
        SameElements(xs, ys);
        assert ys[i] in xs && ys[j] in xs;
        assert ys[i] == ys[j];
        CountedTwice(ys, i, j);
        CountOnce(xs, ys[i]);
      }
    }
  }

  lemma {:induction false} CountOnce(xs: seq<Message>, m: Message)
    requires IdsDistinct(xs) && Identity(m) != ""
    ensures multiset(xs)[m] <= 1
  {
    if xs != [] {
      CountOnce(xs[1..], m);
      assert xs == [xs[0]] + xs[1..];
      if xs[0] == m {
        assert m !in xs[1..];
        assert multiset(xs[1..])[m] == 0;
      }
    }
  }

  // A cached copy wins over a remote message with the same id.
  lemma CachedCopyWins(remote: seq<Message>, cached: seq<Message>, m: Message)
    requires m in Firsts(cached + remote) && Identity(m) != ""
    requires exists c | c in cached :: Identity(c) == Identity(m)
    ensures m in cached
  {
    var union := cached + remote;
    FirstsAre(union);
    assert OccursFirst(union, m);
    var i: nat :| i < |union| && union[i] == m && IsFirst(union, i);
    var c :| c in cached && Identity(c) == Identity(m);
    var k :| 0 <= k < |cached| && cached[k] == c;
    assert union[k] == c;
    assert i <= k;
  }

  // ---- mergeInboxMessages ----

  function InboxTime(m: Message): string {
    DefaultString(m.sentAt, m.storedAt)
  }

  predicate NotEarlier(a: Message, b: Message) {
    !Less(InboxTime(a), InboxTime(b))
  }

  function MergeInbox(limit: int, left: seq<Message>, right: seq<Message>): seq<Message> {
    Limit(StableSort(left + right, NotEarlier), limit)
  }

  // Go's own early return for at most one message agrees with sorting it.
  method MergeInboxMessages(limit: int, left: seq<Message>, right: seq<Message>) returns (r: seq<Message>)
    ensures r == MergeInbox(limit, left, right)
  {
    var all := left + right;
    if |all| <= 1 {
      SortOfSorted(all);
      // The cut the source makes here cannot apply: one message is never more than a positive limit.
      if limit > 0 && |all| > limit {
        assert false;
      }
      return all;
    }
    SortKeepsElements(all, NotEarlier);
    all := StableSort(all, NotEarlier);
    if limit > 0 && |all| > limit {
      return all[..limit];
    }
    return all;
  }

  lemma NotEarlierIsPreorder()
    ensures Preorder(NotEarlier)
  {
    forall a, b ensures NotEarlier(a, b) || NotEarlier(b, a) {
      LessIsTotal(InboxTime(a), InboxTime(b));
    }
    forall a, b, c | NotEarlier(a, b) && NotEarlier(b, c) ensures NotEarlier(a, c) {
      LessTransitive(InboxTime(c), InboxTime(b), InboxTime(a));
    }
  }

  predicate NoLaterThan(a: Message, b: Message) {
    !Less(if TrimSpace(b.sentAt) != "" then b.sentAt else b.storedAt,
          if TrimSpace(a.sentAt) != "" then a.sentAt else a.storedAt)
  }

  // On the times: the merged inbox has the latest messages of both lists, as many as the limit allows, the
  // latest first.
  lemma InboxIsLatest(limit: int, left: seq<Message>, right: seq<Message>)
    ensures var r, all := MergeInbox(limit, left, right), left + right;
      && |r| == (if limit <= 0 || |all| <= limit then |all| else limit)
      && (forall i, j | 0 <= i < j < |r| :: NoLaterThan(r[j], r[i]))
      && exists dropped: seq<Message> :: multiset(r) + multiset(dropped) == multiset(all)
           && forall x, y | x in r && y in dropped :: NoLaterThan(y, x)
  {
    hide NotEarlier, NoLaterThan;
    var all := left + right;
    var ordered := StableSort(all, NotEarlier);
    NotEarlierIsPreorder();
    SortSorts(all, NotEarlier);
    SortPermutes(all, NotEarlier);
    SameElements(ordered, all);
    OrderIsByTime(ordered);
    var r := Limit(ordered, limit);
    var dropped := ordered[|r|..];
    assert ordered == r + dropped;
    assert multiset(r) + multiset(dropped) == multiset(all);
    forall x, y | x in r && y in dropped ensures NoLaterThan(y, x) {
      var i :| 0 <= i < |r| && r[i] == x;
      var j :| 0 <= j < |dropped| && dropped[j] == y;
      assert ordered[i] == x && ordered[|r| + j] == y;
    }
  }

  lemma OrderIsByTime(ordered: seq<Message>)
    requires Sorted(ordered, NotEarlier)
    ensures forall i, j | 0 <= i < j < |ordered| :: NoLaterThan(ordered[j], ordered[i])
  {
    hide Less, TrimSpace;
    forall i, j | 0 <= i < j < |ordered| ensures NoLaterThan(ordered[j], ordered[i]) {
      assert NotEarlier(ordered[i], ordered[j]);
    }
  }

  // The merge of two sorted lists, the left one first among equals.
  function Merge(xs: seq<Message>, ys: seq<Message>): seq<Message> {
    if xs == [] then ys
    else if ys == [] then xs
    else if NotEarlier(xs[0], ys[0]) then [xs[0]] + Merge(xs[1..], ys)
    else [ys[0]] + Merge(xs, ys[1..])
  }

  function First<T>(k: nat, xs: seq<T>): seq<T> {
    if |xs| <= k then xs else xs[..k]
  }

  // The first k of a merge need only the first k of each list.
  lemma {:induction false} MergeOfFirsts(k: nat, i: nat, j: nat, xs: seq<Message>, ys: seq<Message>)
    requires k <= i && k <= j
    ensures First(k, Merge(First(i, xs), First(j, ys))) == First(k, Merge(xs, ys))
  {
    hide NotEarlier;
    var fx, fy := First(i, xs), First(j, ys);
    if k == 0 || xs == [] || ys == [] {
      FirstOfFirst(k, i, xs);
      FirstOfFirst(k, j, ys);
    } else if NotEarlier(xs[0], ys[0]) {
      assert fx[1..] == First(i - 1, xs[1..]);
      MergeOfFirsts(k - 1, i - 1, j, xs[1..], ys);
      FirstCons(k, xs[0], Merge(fx[1..], fy));
      FirstCons(k, xs[0], Merge(xs[1..], ys));
    } else {
      assert fy[1..] == First(j - 1, ys[1..]);
      MergeOfFirsts(k - 1, i, j - 1, xs, ys[1..]);
      FirstCons(k, ys[0], Merge(fx, fy[1..]));
      FirstCons(k, ys[0], Merge(xs, ys[1..]));
    }
  }

  lemma FirstOfFirst<T>(k: nat, i: nat, xs: seq<T>)
    requires k <= i
    ensures First(k, First(i, xs)) == First(k, xs)
  {
  }

  lemma FirstCons<T>(k: nat, x: T, xs: seq<T>)
    requires k > 0
    ensures First(k, [x] + xs) == [x] + First(k - 1, xs)
  {
  }

  // Sorting the concatenation of two sorted lists merges them.
  lemma {:induction false} SortIsMerge(xs: seq<Message>, ys: seq<Message>)
    requires Sorted(xs, NotEarlier) && Sorted(ys, NotEarlier)
    ensures StableSort(xs + ys, NotEarlier) == Merge(xs, ys)
  {
    if xs == [] {
      assert xs + ys == ys;
      SortOfSorted(ys);
    } else {
      assert (xs + ys)[1..] == xs[1..] + ys;
      SortIsMerge(xs[1..], ys);
      InsertIntoMerge(xs[0], xs[1..], ys);
      assert xs == [xs[0]] + xs[1..];
    }
  }

  lemma {:induction false} SortOfSorted(ys: seq<Message>)
    requires Sorted(ys, NotEarlier)
    ensures StableSort(ys, NotEarlier) == ys
  {
    if ys != [] {
      SortOfSorted(ys[1..]);
    }
  }

  lemma {:induction false} InsertIntoMerge(x: Message, xs: seq<Message>, ys: seq<Message>)
    requires forall m | m in xs :: NotEarlier(x, m)
    ensures Insert(x, Merge(xs, ys), NotEarlier) == Merge([x] + xs, ys)
    decreases ys
  {
    assert ([x] + xs)[1..] == xs;
    if ys != [] && !NotEarlier(x, ys[0]) {
      if xs != [] {
        assert xs[0] in xs;
        NotEarlierIsPreorder();
      }
      assert Merge(xs, ys) == [ys[0]] + Merge(xs, ys[1..]);
      InsertIntoMerge(x, xs, ys[1..]);
    } else if ys != [] && xs != [] {
      assert xs[0] in xs;
    }
  }

  // Truncating first is safe: each list cut to the newest k before merging gives the same newest k,
  // in the same order, as merging the whole lists.
  lemma TruncatingFirstIsSafe(k: nat, left: seq<Message>, right: seq<Message>)
    requires k > 0 && Sorted(left, NotEarlier) && Sorted(right, NotEarlier)
    ensures MergeInbox(k, First(k, left), First(k, right)) == MergeInbox(k, left, right)
  {
    SortIsMerge(left, right);
    SortIsMerge(First(k, left), First(k, right));
    MergeOfFirsts(k, k, k, left, right);
  }
}
