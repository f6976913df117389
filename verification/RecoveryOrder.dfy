// The order of the identities a recovery finds: compareRFC3339 of internal/identity/recover.go and the sort by it.
module RecoveryOrder {
  import opened Wrappers
  import opened Text
  import opened Sorting
  import opened Distinct
  import opened IdentityIndex
  import opened Recovery

  // ---- When the comparison is an order ----

  lemma CompareIsAntisymmetric(a: string, b: string, parse: string -> Option<int>)
    ensures Compare(a, b, parse) == -Compare(b, a, parse)
  {
    hide TrimSpace, Less;
    LessIsTotal(TrimSpace(a), TrimSpace(b));
  }

  // A valid RFC 3339 time.
  predicate IsTime(text: string, parse: string -> Option<int>) {
    !Blank(text) && parse(TrimSpace(text)).Some?
  }

  // A text that is no time stands between two times, by the letters, that are not in this order themselves.
  predicate Straddles(p: string, u: string, q: string, parse: string -> Option<int>) {
    && IsTime(p, parse) && IsTime(q, parse) && !Blank(u) && !IsTime(u, parse)
    && Less(TrimSpace(p), TrimSpace(u)) && Less(TrimSpace(u), TrimSpace(q))
    && parse(TrimSpace(q)).value <= parse(TrimSpace(p)).value
  }

  ghost predicate Straddled(times: set<string>, parse: string -> Option<int>) {
    exists p, u, q :: p in times && u in times && q in times && Straddles(p, u, q, parse)
  }

  ghost predicate Transitive(times: set<string>, parse: string -> Option<int>) {
    forall a, b, c | a in times && b in times && c in times ::
      Compare(a, b, parse) <= 0 && Compare(b, c, parse) <= 0 ==> Compare(a, c, parse) <= 0
  }

  // On a set of values the comparison is a total preorder exactly when none of them stands in between so.
  lemma TransitiveUnlessStraddled(times: set<string>, parse: string -> Option<int>)
    ensures Transitive(times, parse) <==> !Straddled(times, parse)
  {
    hide Compare, Straddles;
    forall p, u, q | p in times && u in times && q in times && Straddles(p, u, q, parse)
      ensures !Transitive(times, parse)
    {
      StraddlingCycles(p, u, q, parse);
    }
    forall a, b, c | a in times && b in times && c in times && Compare(a, b, parse) <= 0 && Compare(b, c, parse) <= 0
        && Compare(a, c, parse) > 0
      ensures Straddled(times, parse)
    {
      CycleStraddles(a, b, c, parse);
    }
  }

  lemma StraddlingCycles(p: string, u: string, q: string, parse: string -> Option<int>)
    requires Straddles(p, u, q, parse)
    ensures Compare(p, u, parse) <= 0 && Compare(u, q, parse) <= 0
    ensures Compare(p, q, parse) <= 0 ==> Compare(q, p, parse) <= 0 && Compare(q, u, parse) > 0
  {
    hide TrimSpace, Less;
    LessIsTotal(TrimSpace(u), TrimSpace(q));
  }

  lemma CycleStraddles(a: string, b: string, c: string, parse: string -> Option<int>)
    requires Compare(a, b, parse) <= 0 && Compare(b, c, parse) <= 0 && Compare(a, c, parse) > 0
    ensures Straddles(a, b, c, parse) || Straddles(b, c, a, parse) || Straddles(c, a, b, parse)
  {
    hide TrimSpace, Less;
    var x, y, z := TrimSpace(a), TrimSpace(b), TrimSpace(c);
    LessIsTotal(x, y);
    LessIsTotal(y, z);
    LessIsTotal(x, z);
    NamesInOrder(x, y, z);
  }

  // Such a text in the middle: a time in another zone, a later one in UTC and a text that is no time are in a
  // cycle.
  lemma MixedValuesCycle(parse: string -> Option<int>)
    requires parse("2024-01-01T09:00:00+09:00") == Some(1704067200)
    requires parse("2024-01-01T01:00:00Z") == Some(1704070800)
    requires parse("2024-01-01T05") == None
    ensures var a, b, c := "2024-01-01T09:00:00+09:00", "2024-01-01T01:00:00Z", "2024-01-01T05";
      Compare(a, b, parse) == -1 && Compare(b, c, parse) == -1 && Compare(c, a, parse) == -1
  {
    hide TrimSpace, Less;
    var a, b, c := "2024-01-01T09:00:00+09:00", "2024-01-01T01:00:00Z", "2024-01-01T05";
    TrimmedUnchanged(a);
    TrimmedUnchanged(b);
    TrimmedUnchanged(c);
    assert b[..12] == c[..12] && c[..12] == a[..12];
    LessAt(b, c, 12);
    LessAt(c, a, 12);
  }

  lemma {:induction false} LessAt(s: string, t: string, k: nat)
    requires k < |s| && k < |t| && s[..k] == t[..k] && s[k] < t[k]
    ensures Less(s, t)
  {
    if k > 0 {
      assert s[..k][0] == t[..k][0];
      assert forall i | 0 <= i < k - 1 :: s[1..][i] == s[..k][i + 1] && t[1..][i] == t[..k][i + 1];
      assert s[1..][..k - 1] == t[1..][..k - 1];
      LessAt(s[1..], t[1..], k - 1);
    }
  }

  // Blank, or a valid time.
  predicate Dated(time: string, parse: string -> Option<int>) {
    Blank(time) || IsTime(time, parse)
  }

  // So it is on blank and valid times, the blank ones last, and on texts none of which is a time.
  lemma UniformIsOrdered(times: set<string>, parse: string -> Option<int>)
    requires (forall t | t in times :: Dated(t, parse)) || (forall t | t in times :: !IsTime(t, parse))
    ensures Transitive(times, parse)
    ensures forall s, t | s in times && t in times && Blank(t) :: Compare(s, t, parse) == (if Blank(s) then 0 else -1)
  {
    hide TrimSpace, Less, Transitive;
    TransitiveUnlessStraddled(times, parse);
  }

  // ---- The candidates ----

  function Times(matching: seq<Summary>): set<string> {
    set s | s in matching :: s.details.createdAt
  }

  // The order of the candidates, with everything else behind them.
  function OrderAmong(matching: seq<Summary>, parse: string -> Option<int>): (Summary, Summary) -> bool {
    (x: Summary, y: Summary) => y !in matching || (x in matching && CandidateOrder(parse)(x, y))
  }

  lemma OrderAmongIsPreorder(matching: seq<Summary>, parse: string -> Option<int>)
    requires !Straddled(Times(matching), parse)
    ensures Preorder(OrderAmong(matching, parse))
  {
    hide Less, Compare, Straddled;
    var le := OrderAmong(matching, parse);
    TransitiveUnlessStraddled(Times(matching), parse);
    forall x, y ensures le(x, y) || le(y, x) {
      CompareIsAntisymmetric(x.details.createdAt, y.details.createdAt, parse);
      CompareIsThreeWay(x.details.createdAt, y.details.createdAt, parse);
      LessIsTotal(x.name, y.name);
      assert CandidateOrder(parse)(x, y) || CandidateOrder(parse)(y, x);
    }
    forall x, y, z | le(x, y) && le(y, z) ensures le(x, z) {
      if z in matching {
        OrderIsTransitive(x, y, z, Times(matching), parse);
      }
    }
  }

  lemma CompareIsThreeWay(a: string, b: string, parse: string -> Option<int>)
    ensures Compare(a, b, parse) in {-1, 0, 1}
  {
    hide TrimSpace, Less;
  }

  lemma OrderIsTransitive(x: Summary, y: Summary, z: Summary, times: set<string>, parse: string -> Option<int>)
    requires Transitive(times, parse)
    requires x.details.createdAt in times && y.details.createdAt in times && z.details.createdAt in times
    requires CandidateOrder(parse)(x, y) && CandidateOrder(parse)(y, z)
    ensures CandidateOrder(parse)(x, z)
  {
    hide Less, Compare;
    var a, b, c := x.details.createdAt, y.details.createdAt, z.details.createdAt;
    CompareIsAntisymmetric(a, b, parse);
    CompareIsAntisymmetric(b, c, parse);
    CompareIsAntisymmetric(a, c, parse);
    CompareIsThreeWay(a, b, parse);
    CompareIsThreeWay(b, c, parse);
    CompareIsThreeWay(a, c, parse);
    NamesInOrder(x.name, y.name, z.name);
  }

  lemma NamesInOrder(x: string, y: string, z: string)
    ensures !Less(y, x) && !Less(z, y) ==> !Less(z, x)
  {
    if !Less(y, x) && !Less(z, y) {
      LessTransitive(x, y, z);
    }
  }

  // The candidates of a plan are the matching identities, none in front of one that sorts before it.
  lemma CandidatesAreInOrder(matching: seq<Summary>, parse: string -> Option<int>)
    requires !Straddled(Times(matching), parse)
    ensures var sorted := StableSort(matching, CandidateOrder(parse));
      && multiset(sorted) == multiset(matching)
      && forall i, j | 0 <= i < j < |sorted| :: !SortsBefore(sorted[j], sorted[i], parse)
  {
    hide SortsBefore, Straddled;
    var le, among := CandidateOrder(parse), OrderAmong(matching, parse);
    SortAgrees(matching, le, among);
    OrderAmongIsPreorder(matching, parse);
    SortSorts(matching, among);
    SortPermutes(matching, among);
    SortKeepsElements(matching, among);
    var sorted := StableSort(matching, among);
    forall i, j | 0 <= i < j < |sorted| ensures !SortsBefore(sorted[j], sorted[i], parse) {
      assert among(sorted[i], sorted[j]) && sorted[j] in matching;
    }
  }

  function Time(s: Summary, parse: string -> Option<int>): int {
    parse(TrimSpace(s.details.createdAt)).GetOr(0)
  }

  // a is older than b or, when neither is, not after it by name; no creation time counts as newest.
  predicate InOrder(a: Summary, b: Summary, parse: string -> Option<int>) {
    if Blank(a.details.createdAt) then Blank(b.details.createdAt) && !Less(b.name, a.name)
    else if Blank(b.details.createdAt) then true
    else Time(a, parse) < Time(b, parse) || (Time(a, parse) == Time(b, parse) && !Less(b.name, a.name))
  }

  // For blank and valid times sorting before means being older, with ties by name and no time as the newest.
  lemma BeforeIsOlder(a: Summary, b: Summary, parse: string -> Option<int>)
    requires Dated(a.details.createdAt, parse) && Dated(b.details.createdAt, parse)
    ensures !SortsBefore(b, a, parse) <==> InOrder(a, b, parse)
  {
    hide Less, TrimSpace;
  }

  // The DIDs to merge: those of the candidates, each once, in the order of the first candidate that has it.
  lemma MergeOrderIsByAge(matching: seq<Summary>, parse: string -> Option<int>)
    requires !Straddled(Times(matching), parse)
    ensures var candidates := StableSort(matching, CandidateOrder(parse));
      var dids := FirstOccurrences(TrimmedDIDs(candidates));
      && (forall x :: x in dids <==> x != "" && exists s :: s in matching && TrimSpace(s.did) == x)
      && (forall i, j | 0 <= i < j < |dids| :: dids[i] != dids[j]
            && dids[i] in TrimmedDIDs(candidates) && dids[j] in TrimmedDIDs(candidates)
            && !SortsBefore(candidates[FirstIndex(TrimmedDIDs(candidates), dids[j])],
                            candidates[FirstIndex(TrimmedDIDs(candidates), dids[i])], parse))
  {
    hide SortsBefore, Straddled, TrimSpace, FirstOccurrences, FirstIndex, StableSort;
    var candidates := StableSort(matching, CandidateOrder(parse));
    var all := TrimmedDIDs(candidates);
    var dids := FirstOccurrences(all);
    CandidatesAreInOrder(matching, parse);
    FirstOccurrencesSpec(all);
    SortKeepsElements(matching, CandidateOrder(parse));
    forall x ensures x in all <==> exists s :: s in matching && TrimSpace(s.did) == x {
      if x in all {
        var i :| 0 <= i < |all| && all[i] == x;
        assert candidates[i] in matching;
      }
      if s :| s in matching && TrimSpace(s.did) == x {
        var i :| 0 <= i < |candidates| && candidates[i] == s;
        assert all[i] == x;
      }
    }
    forall i, j | 0 <= i < j < |dids|
      ensures dids[i] != dids[j] && dids[i] in all && dids[j] in all
      ensures !SortsBefore(candidates[FirstIndex(all, dids[j])], candidates[FirstIndex(all, dids[i])], parse)
    {
      assert dids[i] in dids && dids[j] in dids;
      assert FirstIndex(all, dids[i]) < FirstIndex(all, dids[j]);
    }
  }
}
