// The "seen map, result slice" loop the program writes in several places: keep the first
// occurrence of every non-empty string.
module Distinct {

  function FirstOccurrences(xs: seq<string>): (r: seq<string>)
    ensures |r| <= |xs|
  {
    if xs == [] then []
    else
      var x, before := xs[|xs| - 1], xs[..|xs| - 1];
      if x == "" || x in before then FirstOccurrences(before) else FirstOccurrences(before) + [x]
  }

  function FirstIndex(xs: seq<string>, x: string): (i: nat)
    requires x in xs
    ensures i < |xs| && xs[i] == x && x !in xs[..i]
  {
    if xs[0] == x then 0 else 1 + FirstIndex(xs[1..], x)
  }

  lemma FirstIndexPrefix(xs: seq<string>, n: nat, x: string)
    requires n <= |xs| && x in xs[..n]
    ensures FirstIndex(xs[..n], x) == FirstIndex(xs, x)
  {
    var i := FirstIndex(xs[..n], x);
    assert xs[..n][..i] == xs[..i];
    FirstIndexUnique(xs, x, i);
  }

  lemma {:induction false} FirstIndexUnique(xs: seq<string>, x: string, i: nat)
    requires i < |xs| && xs[i] == x && x !in xs[..i]
    ensures FirstIndex(xs, x) == i
  {
    if i > 0 {
      assert xs[..i][0] == xs[0];
      assert xs[1..][..i - 1] == xs[1..i];
      assert forall k | 0 <= k < i - 1 :: xs[1..i][k] == xs[..i][k + 1];
      FirstIndexUnique(xs[1..], x, i - 1);
    }
  }

  // The result holds exactly the non-empty elements, each once, in the order in which they first occur.
  lemma {:induction false} FirstOccurrencesSpec(xs: seq<string>)
    ensures forall x :: x in FirstOccurrences(xs) <==> x in xs && x != ""
    ensures forall i, j | 0 <= i < j < |FirstOccurrences(xs)| ::
      FirstIndex(xs, FirstOccurrences(xs)[i]) < FirstIndex(xs, FirstOccurrences(xs)[j])
  {
    if xs != [] {
      var x, before := xs[|xs| - 1], xs[..|xs| - 1];
      assert xs == before + [x];
      FirstOccurrencesSpec(before);
      var r, t := FirstOccurrences(before), FirstOccurrences(xs);
      forall y | y in before ensures FirstIndex(xs, y) == FirstIndex(before, y) {
        FirstIndexPrefix(xs, |xs| - 1, y);
      }
      forall i, j | 0 <= i < j < |t| ensures FirstIndex(xs, t[i]) < FirstIndex(xs, t[j]) {
        assert t[i] == r[i] && r[i] in r && r[i] in before;
        if j < |r| {
          assert r[j] in r && r[j] in before;
        } else {
          assert t[j] == x && x !in before;
          assert FirstIndex(xs, x) >= |before|;
        }
      }
    }
  }

  method DistinctNonEmpty(xs: seq<string>) returns (result: seq<string>)
    ensures result == FirstOccurrences(xs)
  {
    var seen: set<string> := {};
    result := [];
    for i := 0 to |xs|
      invariant result == FirstOccurrences(xs[..i])
      invariant forall x :: x in seen <==> x in xs[..i] && x != ""
    {
      assert xs[..i + 1][..i] == xs[..i];
      if xs[i] == "" || xs[i] in seen {
        continue;
      }
      seen := seen + {xs[i]};
      result := result + [xs[i]];
    }
    assert xs[..|xs|] == xs;
  }
}
