/** Library sorting as the code uses it: any sorted permutation, computed here by insertion. */
module Sorting {
  ghost predicate TotalOrder<T(!new)>(le: (T, T) -> bool) {
    && (forall x, y :: le(x, y) || le(y, x))
    && (forall x, y :: le(x, y) && le(y, x) ==> x == y)
    && (forall x, y, z :: le(x, y) && le(y, z) ==> le(x, z))
  }

  ghost predicate Sorted<T>(le: (T, T) -> bool, xs: seq<T>) {
    forall i, j | 0 <= i < j < |xs| :: le(xs[i], xs[j])
  }

  ghost predicate StrictlySorted<T>(le: (T, T) -> bool, xs: seq<T>) {
    forall i, j | 0 <= i < j < |xs| :: le(xs[i], xs[j]) && xs[i] != xs[j]
  }

  ghost predicate Distinct<T>(xs: seq<T>) {
    forall i, j | 0 <= i < j < |xs| :: xs[i] != xs[j]
  }

  function Insert<T>(le: (T, T) -> bool, x: T, xs: seq<T>): (r: seq<T>)
    ensures multiset(r) == multiset(xs) + multiset{x}
  {
    if xs == [] then [x]
    else
      assert xs == [xs[0]] + xs[1..];
      if le(x, xs[0]) then [x] + xs else [xs[0]] + Insert(le, x, xs[1..])
  }

  lemma {:induction false} InsertKeepsSorted<T(!new)>(le: (T, T) -> bool, x: T, xs: seq<T>)
    requires TotalOrder(le) && Sorted(le, xs)
    ensures Sorted(le, Insert(le, x, xs))
    decreases |xs|
  {
    if xs != [] && !le(x, xs[0]) {
      var rest := Insert(le, x, xs[1..]);
      InsertKeepsSorted(le, x, xs[1..]);
      forall j | 0 <= j < |rest| ensures le(xs[0], rest[j]) {
        assert rest[j] in multiset(rest);
        assert rest[j] == x || rest[j] in xs[1..];
      }
    }
  }

  function Sort<T(!new)>(le: (T, T) -> bool, xs: seq<T>): (r: seq<T>)
    requires TotalOrder(le)
    ensures Sorted(le, r) && multiset(r) == multiset(xs)
  {
    if xs == [] then []
    else
      assert xs == [xs[0]] + xs[1..];
      var rest := Sort(le, xs[1..]);
      InsertKeepsSorted(le, xs[0], rest);
      Insert(le, xs[0], rest)
  }

  lemma SameMultisetSameElements<T(!new)>(xs: seq<T>, ys: seq<T>)
    requires multiset(xs) == multiset(ys)
    ensures |xs| == |ys| && forall x :: x in xs <==> x in ys
  {
    assert |multiset(xs)| == |xs| && |multiset(ys)| == |ys|;
    forall x ensures x in xs <==> x in ys {
      assert x in xs <==> x in multiset(xs);
      assert x in ys <==> x in multiset(ys);
    }
  }

  lemma EmptyWithoutElements<T(!new)>(xs: seq<T>)
    ensures xs == [] || exists x :: x in xs
  {
    if xs != [] { assert xs[0] in xs; }
  }

  ghost predicate StrictOrder<T(!new)>(lt: (T, T) -> bool) {
    && (forall x :: !lt(x, x))
    && (forall x, y, z :: lt(x, y) && lt(y, z) ==> lt(x, z))
  }

  /** A non-empty finite set has an element that no other precedes. */
  lemma {:induction false} MinimalExists<T(!new)>(lt: (T, T) -> bool, items: set<T>)
    requires StrictOrder(lt) && items != {}
    ensures exists m :: m in items && forall x | x in items :: !lt(x, m)
    decreases items
  {
    var x :| x in items;
    if items == {x} {
      assert forall y | y in items :: !lt(y, x);
    } else {
      MinimalExists(lt, items - {x});
      var rest := items - {x};
      var y :| y in rest && forall z | z in rest :: !lt(z, y);
      if lt(x, y) {
        forall z | z in items ensures !lt(z, x) {
          assert lt(z, x) && lt(x, y) ==> lt(z, y);
        }
      } else {
        assert forall z | z in items :: z == x || z in rest;
      }
    }
  }

  /** Each element once, and none after one that it precedes. */
  ghost predicate InOrderOf<T>(lt: (T, T) -> bool, rows: seq<T>) {
    forall i, j | 0 <= i < j < |rows| :: rows[i] != rows[j] && !lt(rows[j], rows[i])
  }

  ghost predicate PrecedesNone<T>(lt: (T, T) -> bool, items: set<T>, row: T) {
    forall x | x in items :: !lt(x, row)
  }

  /** ORDER BY, with the order of ties left open: repeatedly some element that no remaining one precedes. */
  method ReadInOrder<T(==,!new)>(lt: (T, T) -> bool, items: set<T>) returns (rows: seq<T>)
    requires StrictOrder(lt)
    ensures InOrderOf(lt, rows)
    ensures forall x :: x in rows <==> x in items
  {
    rows := [];
    var remaining := items;
    while remaining != {}
      invariant forall x :: x in items <==> x in rows || x in remaining
      invariant forall x | x in rows :: x !in remaining && PrecedesNone(lt, remaining, x)
      invariant InOrderOf(lt, rows)
      decreases remaining
    {
      MinimalExists(lt, remaining);
      var first :| first in remaining && forall x | x in remaining :: !lt(x, first);
      forall i | 0 <= i < |rows| ensures rows[i] != first && !lt(first, rows[i]) {
        assert rows[i] in rows && PrecedesNone(lt, remaining, rows[i]);
      }
      rows := rows + [first];
      remaining := remaining - {first};
    }
  }

  ghost predicate Increasing<T>(lt: (T, T) -> bool, xs: seq<T>) {
    forall i, j | 0 <= i < j < |xs| :: lt(xs[i], xs[j])
  }

  /** An increasing sequence is determined by its elements. */
  lemma {:induction false} IncreasingIsUnique<T(!new)>(lt: (T, T) -> bool, xs: seq<T>, ys: seq<T>)
    requires StrictOrder(lt) && Increasing(lt, xs) && Increasing(lt, ys)
    requires forall x :: x in xs <==> x in ys
    ensures xs == ys
    decreases |xs|
  {
    if xs == [] || ys == [] {
      EmptyWithoutElements(xs);
      EmptyWithoutElements(ys);
    } else {
      assert xs[0] in ys && ys[0] in xs;
      var i :| 0 <= i < |ys| && ys[i] == xs[0];
      var j :| 0 <= j < |xs| && xs[j] == ys[0];
      assert xs[0] == ys[0];
      forall x ensures x in xs[1..] <==> x in ys[1..] {
        if x in xs[1..] { assert x in xs && x in ys && x != xs[0]; }
        if x in ys[1..] { assert x in ys && x in xs && x != ys[0]; }
      }
      IncreasingIsUnique(lt, xs[1..], ys[1..]);
      assert xs == [xs[0]] + xs[1..] && ys == [ys[0]] + ys[1..];
    }
  }

  /** A strictly sorted sequence is determined by its elements. */
  lemma StrictlySortedIsUnique<T(!new)>(le: (T, T) -> bool, xs: seq<T>, ys: seq<T>)
    requires TotalOrder(le) && StrictlySorted(le, xs) && StrictlySorted(le, ys)
    requires forall x :: x in xs <==> x in ys
    ensures xs == ys
  {
    IncreasingIsUnique((x, y) => le(x, y) && x != y, xs, ys);
  }

  /** `dedup`: drops each element equal to its predecessor. */
  function Dedup<T(==,!new)>(xs: seq<T>): (r: seq<T>)
    ensures forall x :: x in r <==> x in xs
    ensures xs != [] ==> r != [] && r[0] == xs[0]
  {
    if |xs| <= 1 then xs
    else
      assert xs == [xs[0]] + xs[1..];
      if xs[0] == xs[1] then Dedup(xs[1..]) else [xs[0]] + Dedup(xs[1..])
  }

  lemma {:induction false} DedupOfSortedIsStrict<T(!new)>(le: (T, T) -> bool, xs: seq<T>)
    requires TotalOrder(le) && Sorted(le, xs)
    ensures StrictlySorted(le, Dedup(xs))
    decreases |xs|
  {
    if |xs| > 1 {
      DedupOfSortedIsStrict(le, xs[1..]);
      var rest := Dedup(xs[1..]);
      if xs[0] != xs[1] {
        forall j | 0 <= j < |rest| ensures le(xs[0], rest[j]) && xs[0] != rest[j] {
          assert rest[j] in xs[1..];
          var k :| 0 <= k < |xs[1..]| && xs[1..][k] == rest[j];
          assert le(xs[0], xs[1]) && (k == 0 || le(xs[1], xs[k + 1]));
        }
      }
    }
  }
}
