// sort.SliceStable. Go's contract (ascending, equal elements keep their order)
// determines the result when the comparison is a total preorder, so the library
// call is modelled by the simplest algorithm that meets it.
module Sorting {

  // le(x, y) is "y does not sort before x": the negation of Go's less(y, x).
  ghost predicate Preorder<T(!new)>(le: (T, T) -> bool) {
    && (forall x, y :: le(x, y) || le(y, x))
    && (forall x, y, z :: le(x, y) && le(y, z) ==> le(x, z))
  }

  ghost predicate Sorted<T>(xs: seq<T>, le: (T, T) -> bool) {
    forall i, j | 0 <= i < j < |xs| :: le(xs[i], xs[j])
  }

  function Insert<T>(x: T, ys: seq<T>, le: (T, T) -> bool): seq<T> {
    if ys == [] || le(x, ys[0]) then [x] + ys else [ys[0]] + Insert(x, ys[1..], le)
  }

  function StableSort<T>(xs: seq<T>, le: (T, T) -> bool): seq<T> {
    if xs == [] then [] else Insert(xs[0], StableSort(xs[1..], le), le)
  }

  lemma {:induction false} InsertPermutes<T>(x: T, ys: seq<T>, le: (T, T) -> bool)
    ensures multiset(Insert(x, ys, le)) == multiset{x} + multiset(ys)
  {
    if ys != [] && !le(x, ys[0]) {
      InsertPermutes(x, ys[1..], le);
      assert ys == [ys[0]] + ys[1..];
    }
  }

  lemma {:induction false} SortPermutes<T>(xs: seq<T>, le: (T, T) -> bool)
    ensures multiset(StableSort(xs, le)) == multiset(xs)
  {
    if xs != [] {
      SortPermutes(xs[1..], le);
      InsertPermutes(xs[0], StableSort(xs[1..], le), le);
      assert xs == [xs[0]] + xs[1..];
    }
  }

  lemma SameElements<T>(xs: seq<T>, ys: seq<T>)
    requires multiset(xs) == multiset(ys)
    ensures forall x | x in xs :: x in ys
    ensures forall x | x in ys :: x in xs
    ensures |xs| == |ys|
  {
    forall x ensures x in xs <==> x in ys {
      assert x in xs <==> x in multiset(xs);
      assert x in ys <==> x in multiset(ys);
    }
    assert |multiset(xs)| == |xs|;
  }

  lemma CountedTwice<T>(xs: seq<T>, i: nat, j: nat)
    requires i < j < |xs| && xs[i] == xs[j]
    ensures multiset(xs)[xs[i]] >= 2
  {
    assert xs == xs[..i] + [xs[i]] + xs[i + 1..j] + [xs[j]] + xs[j + 1..];
  }

  lemma SortKeepsElements<T>(xs: seq<T>, le: (T, T) -> bool)
    ensures forall x | x in xs :: x in StableSort(xs, le)
    ensures forall x | x in StableSort(xs, le) :: x in xs
    ensures |StableSort(xs, le)| == |xs|
  {
    SortPermutes(xs, le);
    SameElements(StableSort(xs, le), xs);
  }

  lemma {:induction false} InsertSorted<T(!new)>(x: T, ys: seq<T>, le: (T, T) -> bool)
    requires Preorder(le) && Sorted(ys, le)
    ensures Sorted(Insert(x, ys, le), le)
  {
    if ys != [] && !le(x, ys[0]) {
      var rest := Insert(x, ys[1..], le);
      InsertSorted(x, ys[1..], le);
      InsertPermutes(x, ys[1..], le);
      forall i | 0 <= i < |rest| ensures le(ys[0], rest[i]) {
        assert rest[i] in multiset(rest);
        assert rest[i] == x || rest[i] in ys[1..];
      }
    }
  }

  lemma {:induction false} SortSorts<T(!new)>(xs: seq<T>, le: (T, T) -> bool)
    requires Preorder(le)
    ensures Sorted(StableSort(xs, le), le)
  {
    if xs != [] {
      SortSorts(xs[1..], le);
      InsertSorted(xs[0], StableSort(xs[1..], le), le);
    }
  }

  ghost predicate TiesKept<T>(xs: seq<T>, le: (T, T) -> bool, keeps: (T, T) -> bool) {
    forall i, j | 0 <= i < j < |xs| :: le(xs[j], xs[i]) ==> keeps(xs[i], xs[j])
  }

  // What holds between earlier and later elements still holds between those that tie.
  lemma {:induction false} SortKeepsTies<T>(xs: seq<T>, le: (T, T) -> bool, keeps: (T, T) -> bool)
    requires forall i, j | 0 <= i < j < |xs| :: keeps(xs[i], xs[j])
    ensures TiesKept(StableSort(xs, le), le, keeps)
  {
    if xs != [] {
      var rest := xs[1..];
      SortKeepsTies(rest, le, keeps);
      SortKeepsElements(rest, le);
      forall y | y in StableSort(rest, le) ensures keeps(xs[0], y) {
        var j :| 0 <= j < |rest| && rest[j] == y;
        assert xs[j + 1] == y;
      }
      InsertKeepsTies(xs[0], StableSort(rest, le), le, keeps);
    }
  }

  lemma {:induction false} InsertKeepsTies<T>(x: T, ys: seq<T>, le: (T, T) -> bool, keeps: (T, T) -> bool)
    requires forall y | y in ys :: keeps(x, y)
    requires TiesKept(ys, le, keeps)
    ensures TiesKept(Insert(x, ys, le), le, keeps)
  {
    if ys != [] && !le(x, ys[0]) {
      var rest := Insert(x, ys[1..], le);
      InsertKeepsTies(x, ys[1..], le, keeps);
      InsertPermutes(x, ys[1..], le);
      forall j | 0 <= j < |rest| && le(rest[j], ys[0]) ensures keeps(ys[0], rest[j]) {
        assert rest[j] in multiset(rest);
        var k :| 1 <= k < |ys| && ys[k] == rest[j];
      }
    }
  }

  // The elements of xs that tie with x, in order.
  function Ties<T>(x: T, xs: seq<T>, le: (T, T) -> bool): seq<T> {
    if xs == [] then [] else IfTied(x, xs[0], le) + Ties(x, xs[1..], le)
  }

  function IfTied<T>(x: T, y: T, le: (T, T) -> bool): seq<T> {
    if le(x, y) && le(y, x) then [y] else []
  }

  lemma TiesCons<T>(x: T, a: T, xs: seq<T>, le: (T, T) -> bool)
    ensures Ties(x, [a] + xs, le) == IfTied(x, a, le) + Ties(x, xs, le)
  {
    assert ([a] + xs)[1..] == xs;
  }

  lemma NotBothTied<T(!new)>(x: T, a: T, y: T, le: (T, T) -> bool)
    requires Preorder(le) && !le(a, y)
    ensures IfTied(x, a, le) == [] || IfTied(x, y, le) == []
  {
    assert le(a, x) && le(x, y) ==> le(a, y);
  }

  lemma {:induction false} TiesInsert<T(!new)>(x: T, a: T, ys: seq<T>, le: (T, T) -> bool)
    requires Preorder(le)
    ensures Ties(x, Insert(a, ys, le), le) == Ties(x, [a] + ys, le)
    decreases |ys|
  {
    hide Preorder, IfTied, Ties;
    if ys == [] || le(a, ys[0]) {
      assert Insert(a, ys, le) == [a] + ys;
    } else {
      var y, rest := ys[0], ys[1..];
      NotBothTied(x, a, y, le);
      TiesInsert(x, a, rest, le);
      TiesCons(x, y, Insert(a, rest, le), le);
      TiesCons(x, y, rest, le);
      TiesCons(x, a, rest, le);
      TiesCons(x, a, ys, le);
      assert ys == [y] + rest;
    }
  }

  // Equal elements keep their order.
  lemma {:induction false} SortIsStable<T(!new)>(x: T, xs: seq<T>, le: (T, T) -> bool)
    requires Preorder(le)
    ensures Ties(x, StableSort(xs, le), le) == Ties(x, xs, le)
  {
    if xs != [] {
      SortIsStable(x, xs[1..], le);
      TiesInsert(x, xs[0], StableSort(xs[1..], le), le);
      TiesCons(x, xs[0], StableSort(xs[1..], le), le);
    }
  }

  // Sorted and stable: there is only one such arrangement.
  lemma {:induction false} StableArrangementUnique<T(!new)>(xs: seq<T>, ys: seq<T>, le: (T, T) -> bool)
    requires Preorder(le) && multiset(xs) == multiset(ys)
    requires Sorted(xs, le) && Sorted(ys, le)
    requires forall x :: Ties(x, xs, le) == Ties(x, ys, le)
    ensures xs == ys
    decreases |xs|
  {
    hide Preorder, Sorted, Ties, IfTied;
    SameElements(xs, ys);
    if xs != [] {
      assert xs[0] in xs && ys[0] in ys;
      SameHead(xs, ys, le);
      DropHead(xs, le);
      DropHead(ys, le);
      TiesTail(xs, ys, le);
      StableArrangementUnique(xs[1..], ys[1..], le);
      assert xs == [xs[0]] + xs[1..] && ys == [ys[0]] + ys[1..];
    }
  }

  lemma DropHead<T>(xs: seq<T>, le: (T, T) -> bool)
    requires xs != [] && Sorted(xs, le)
    ensures Sorted(xs[1..], le)
    ensures multiset(xs[1..]) == multiset(xs) - multiset{xs[0]}
  {
    assert xs == [xs[0]] + xs[1..];
  }

  lemma SameHead<T(!new)>(xs: seq<T>, ys: seq<T>, le: (T, T) -> bool)
    requires xs != [] && ys != [] && xs[0] in ys && ys[0] in xs
    requires Preorder(le) && Sorted(xs, le) && Sorted(ys, le)
    requires Ties(xs[0], xs, le) == Ties(xs[0], ys, le)
    ensures xs[0] == ys[0]
  {
    var x, y := xs[0], ys[0];
    assert le(x, x) && le(y, y);
    assert le(x, y) by {
      var i :| 0 <= i < |xs| && xs[i] == y;
      assert i > 0 ==> le(xs[0], xs[i]);
    }
    assert le(y, x) by {
      var j :| 0 <= j < |ys| && ys[j] == x;
      assert j > 0 ==> le(ys[0], ys[j]);
    }
    assert Ties(x, xs, le)[0] == x;
    assert Ties(x, ys, le)[0] == y;
  }

  lemma TiesTail<T(!new)>(xs: seq<T>, ys: seq<T>, le: (T, T) -> bool)
    requires xs != [] && ys != [] && xs[0] == ys[0]
    requires forall z :: Ties(z, xs, le) == Ties(z, ys, le)
    ensures forall z :: Ties(z, xs[1..], le) == Ties(z, ys[1..], le)
  {
    forall z ensures Ties(z, xs[1..], le) == Ties(z, ys[1..], le) {
      var h := IfTied(z, xs[0], le);
      assert Ties(z, xs[1..], le) == Ties(z, xs, le)[|h|..];
      assert Ties(z, ys[1..], le) == Ties(z, ys, le)[|h|..];
    }
  }

  // Only the comparisons between the elements matter.
  lemma {:induction false} SortAgrees<T>(xs: seq<T>, le: (T, T) -> bool, other: (T, T) -> bool)
    requires forall x, y | x in xs && y in xs :: le(x, y) == other(x, y)
    ensures StableSort(xs, le) == StableSort(xs, other)
  {
    if xs != [] {
      assert forall x | x in xs[1..] :: x in xs;
      SortAgrees(xs[1..], le, other);
      SortKeepsElements(xs[1..], le);
      InsertAgrees(xs[0], StableSort(xs[1..], le), le, other);
    }
  }

  lemma {:induction false} InsertAgrees<T>(x: T, ys: seq<T>, le: (T, T) -> bool, other: (T, T) -> bool)
    requires forall y | y in ys :: le(x, y) == other(x, y)
    ensures Insert(x, ys, le) == Insert(x, ys, other)
  {
    if ys != [] {
      assert forall y | y in ys[1..] :: y in ys;
      InsertAgrees(x, ys[1..], le, other);
    }
  }
}
