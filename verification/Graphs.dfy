/** Walks in a finite directed graph, and the evaluation rule of a recursive query. */
module Graphs {
  /** There is a walk of exactly `n` edges from `a` to `b`. */
  ghost predicate Walk<T(!new)>(edges: set<(T, T)>, a: T, b: T, n: nat) {
    if n == 0 then a == b
    else exists c :: (a, c) in edges && Walk(edges, c, b, n - 1)
  }

  /** `b` can be reached from `a` in zero or more steps. */
  ghost predicate Reaches<T(!new)>(edges: set<(T, T)>, a: T, b: T) {
    exists n: nat :: Walk(edges, a, b, n)
  }

  /** `b` can be reached from `a` in one or more steps. */
  ghost predicate ReachesStrictly<T(!new)>(edges: set<(T, T)>, a: T, b: T) {
    exists n: nat :: n >= 1 && Walk(edges, a, b, n)
  }

  ghost predicate Acyclic<T(!new)>(edges: set<(T, T)>) {
    forall a :: !ReachesStrictly(edges, a, a)
  }

  function Targets<T(==)>(edges: set<(T, T)>): set<T> {
    set e | e in edges :: e.1
  }

  function Reverse<T(==)>(edges: set<(T, T)>): set<(T, T)> {
    set e | e in edges :: (e.1, e.0)
  }

  lemma {:induction false} WalkAppend<T(!new)>(edges: set<(T, T)>, a: T, b: T, c: T, m: nat, n: nat)
    requires Walk(edges, a, b, m) && Walk(edges, b, c, n)
    ensures Walk(edges, a, c, m + n)
    decreases m
  {
    if m > 0 {
      var d :| (a, d) in edges && Walk(edges, d, b, m - 1);
      WalkAppend(edges, d, b, c, m - 1, n);
    }
  }

  lemma StepWalk<T(!new)>(edges: set<(T, T)>, a: T, b: T)
    requires (a, b) in edges
    ensures Walk(edges, a, b, 1)
  {
    assert Walk(edges, b, b, 0);
  }

  lemma ReachesTransitive<T(!new)>(edges: set<(T, T)>, a: T, b: T, c: T)
    requires Reaches(edges, a, b) && Reaches(edges, b, c)
    ensures Reaches(edges, a, c)
  {
    var m: nat :| Walk(edges, a, b, m);
    var n: nat :| Walk(edges, b, c, n);
    WalkAppend(edges, a, b, c, m, n);
  }

  lemma ReachesSelf<T(!new)>(edges: set<(T, T)>, a: T)
    ensures Reaches(edges, a, a)
  {
    assert Walk(edges, a, a, 0);
  }

  lemma EdgeThenReaches<T(!new)>(edges: set<(T, T)>, a: T, b: T, c: T)
    requires (a, b) in edges && Reaches(edges, b, c)
    ensures ReachesStrictly(edges, a, c) && Reaches(edges, a, c)
  {
    var n: nat :| Walk(edges, b, c, n);
    assert Walk(edges, a, c, n + 1);
  }

  lemma ReachesThenEdge<T(!new)>(edges: set<(T, T)>, a: T, b: T, c: T)
    requires Reaches(edges, a, b) && (b, c) in edges
    ensures ReachesStrictly(edges, a, c)
  {
    var n: nat :| Walk(edges, a, b, n);
    StepWalk(edges, b, c);
    WalkAppend(edges, a, b, c, n, 1);
  }

  lemma StrictOrSame<T(!new)>(edges: set<(T, T)>, a: T, b: T)
    ensures Reaches(edges, a, b) <==> a == b || ReachesStrictly(edges, a, b)
  {
    if a == b { ReachesSelf(edges, a); }
    if Reaches(edges, a, b) {
      var n: nat :| Walk(edges, a, b, n);
      if n == 0 { assert a == b; }
    }
  }

  lemma {:induction false} WalkMonotonic<T(!new)>(small: set<(T, T)>, large: set<(T, T)>, a: T, b: T, n: nat)
    requires small <= large && Walk(small, a, b, n)
    ensures Walk(large, a, b, n)
    decreases n
  {
    if n > 0 {
      var c :| (a, c) in small && Walk(small, c, b, n - 1);
      WalkMonotonic(small, large, c, b, n - 1);
    }
  }

  lemma ReachesMonotonic<T(!new)>(small: set<(T, T)>, large: set<(T, T)>, a: T, b: T)
    requires small <= large && Reaches(small, a, b)
    ensures Reaches(large, a, b)
  {
    var n: nat :| Walk(small, a, b, n);
    WalkMonotonic(small, large, a, b, n);
  }

  lemma {:induction false} WalkThroughNewEdge<T(!new)>(edges: set<(T, T)>, s: T, d: T, a: T, b: T, n: nat)
    requires Walk(edges + {(s, d)}, a, b, n)
    ensures Reaches(edges, a, b) || (Reaches(edges, a, s) && Reaches(edges, d, b))
    decreases n
  {
    if n == 0 {
      ReachesSelf(edges, a);
    } else {
      var c :| (a, c) in edges + {(s, d)} && Walk(edges + {(s, d)}, c, b, n - 1);
      WalkThroughNewEdge(edges, s, d, c, b, n - 1);
      if (a, c) in edges {
        if Reaches(edges, c, b) { EdgeThenReaches(edges, a, c, b); } else { EdgeThenReaches(edges, a, c, s); }
      } else {
        ReachesSelf(edges, s);
      }
    }
  }

  /** What one more edge `s -> d` makes reachable, and nothing else. */
  lemma ReachesWithNewEdge<T(!new)>(edges: set<(T, T)>, s: T, d: T, a: T, b: T)
    ensures Reaches(edges + {(s, d)}, a, b)
       <==> Reaches(edges, a, b) || (Reaches(edges, a, s) && Reaches(edges, d, b))
  {
    var more := edges + {(s, d)};
    if Reaches(more, a, b) {
      var n: nat :| Walk(more, a, b, n);
      WalkThroughNewEdge(edges, s, d, a, b, n);
    }
    if Reaches(edges, a, b) { ReachesMonotonic(edges, more, a, b); }
    if Reaches(edges, a, s) && Reaches(edges, d, b) {
      ReachesMonotonic(edges, more, a, s);
      ReachesMonotonic(edges, more, d, b);
      EdgeThenReaches(more, s, d, b);
      ReachesTransitive(more, a, s, b);
    }
  }

  /** Adding an edge keeps a graph acyclic exactly when its target does not already reach its source. */
  lemma AcyclicWithNewEdge<T(!new)>(edges: set<(T, T)>, s: T, d: T)
    requires Acyclic(edges)
    ensures Acyclic(edges + {(s, d)}) <==> !Reaches(edges, d, s)
  {
    var more := edges + {(s, d)};
    if Reaches(edges, d, s) {
      ReachesMonotonic(edges, more, d, s);
      EdgeThenReaches(more, s, d, s);
    } else {
      forall a ensures !ReachesStrictly(more, a, a) {
        if ReachesStrictly(more, a, a) {
          var n: nat :| n >= 1 && Walk(more, a, a, n);
          var c :| (a, c) in more && Walk(more, c, a, n - 1);
          ReachesWithNewEdge(edges, s, d, c, a);
          if (a, c) in edges {
            if Reaches(edges, c, a) {
              EdgeThenReaches(edges, a, c, a);
            } else {
              EdgeThenReaches(edges, a, c, s);
              ReachesTransitive(edges, d, a, s);
            }
          }
          assert false;
        }
      }
    }
  }

  lemma {:induction false} ReverseWalk<T(!new)>(edges: set<(T, T)>, a: T, b: T, n: nat)
    requires Walk(edges, a, b, n)
    ensures Walk(Reverse(edges), b, a, n)
    decreases n
  {
    if n > 0 {
      var c :| (a, c) in edges && Walk(edges, c, b, n - 1);
      ReverseWalk(edges, c, b, n - 1);
      assert (c, a) in Reverse(edges) by { var e := (a, c); assert e in edges && (e.1, e.0) == (c, a); }
      StepWalk(Reverse(edges), c, a);
      WalkAppend(Reverse(edges), b, c, a, n - 1, 1);
    }
  }

  lemma ReverseTwice<T(!new)>(edges: set<(T, T)>)
    ensures Reverse(Reverse(edges)) == edges
  {
    forall e | e in edges ensures e in Reverse(Reverse(edges)) {
      assert (e.1, e.0) in Reverse(edges);
    }
  }

  lemma WalkReversed<T(!new)>(edges: set<(T, T)>, a: T, b: T, n: nat)
    ensures Walk(edges, a, b, n) <==> Walk(Reverse(edges), b, a, n)
  {
    if Walk(edges, a, b, n) { ReverseWalk(edges, a, b, n); }
    if Walk(Reverse(edges), b, a, n) {
      ReverseWalk(Reverse(edges), b, a, n);
      ReverseTwice(edges);
    }
  }

  lemma ReverseAcyclic<T(!new)>(edges: set<(T, T)>)
    requires Acyclic(edges)
    ensures Acyclic(Reverse(edges))
  {
    forall a ensures !ReachesStrictly(Reverse(edges), a, a) {
      assert !ReachesStrictly(edges, a, a);
      if ReachesStrictly(Reverse(edges), a, a) {
        var n: nat :| n >= 1 && Walk(Reverse(edges), a, a, n);
        WalkReversed(edges, a, a, n);
      }
    }
  }

  /** The nodes after the first of a walk in an acyclic graph are pairwise distinct. */
  lemma {:induction false} WalkVisits<T(!new)>(edges: set<(T, T)>, a: T, b: T, n: nat) returns (seen: set<T>)
    requires Acyclic(edges) && Walk(edges, a, b, n)
    ensures |seen| == n && seen <= Targets(edges)
    ensures forall v | v in seen :: ReachesStrictly(edges, a, v)
    decreases n
  {
    if n == 0 {
      seen := {};
    } else {
      var c :| (a, c) in edges && Walk(edges, c, b, n - 1);
      var rest := WalkVisits(edges, c, b, n - 1);
      seen := rest + {c};
      StepWalk(edges, a, c);
      forall v | v in rest ensures ReachesStrictly(edges, a, v) {
        StrictOrSame(edges, c, v);
        EdgeThenReaches(edges, a, c, v);
      }
      assert (a, c).1 in Targets(edges);
      assert c !in rest;
    }
  }

  lemma WalksAreShort<T(!new)>(edges: set<(T, T)>, a: T, b: T, n: nat)
    requires Acyclic(edges) && Walk(edges, a, b, n)
    ensures n <= |Targets(edges)|
  {
    var seen := WalkVisits(edges, a, b, n);
    SubsetSize(seen, Targets(edges));
  }

  lemma {:induction false} SubsetSize<T>(small: set<T>, large: set<T>)
    requires small <= large
    ensures |small| <= |large|
    decreases small
  {
    if small != {} {
      var x :| x in small;
      SubsetSize(small - {x}, large - {x});
    }
  }

  function Successors<T(==)>(edges: set<(T, T)>, from: set<T>): set<T> {
    set e | e in edges && e.0 in from :: e.1
  }

  /**
   * `WITH RECURSIVE ... UNION`: each round joins the rows of the previous round with the edges,
   * drops rows already found, and stops when a round adds nothing.
   */
  function RecursiveUnion<T(==)>(edges: set<(T, T)>, found: set<T>, working: set<T>): set<T>
    requires found <= Targets(edges)
    decreases |Targets(edges) - found|, |working|
  {
    if working == {} then found
    else
      var added := Successors(edges, working) - found;
      RoundShrinks(edges, found, added);
      RecursiveUnion(edges, found + added, added)
  }

  lemma RoundShrinks<T>(edges: set<(T, T)>, found: set<T>, added: set<T>)
    requires added <= Targets(edges) && added !! found
    ensures added != {} ==> |Targets(edges) - (found + added)| < |Targets(edges) - found|
    ensures added == {} ==> found + added == found
  {
    if added != {} {
      var before, after := Targets(edges) - found, Targets(edges) - (found + added);
      var x :| x in added;
      assert x in before && x !in after;
      SubsetSize(after, before - {x});
    }
  }

  lemma {:induction false} RecursiveUnionIsReachability<T(!new)>(
      edges: set<(T, T)>, start: T, found: set<T>, working: set<T>)
    requires found <= Targets(edges) && working <= found
    requires Successors(edges, {start}) <= found && Successors(edges, found - working) <= found
    requires forall v | v in found :: ReachesStrictly(edges, start, v)
    ensures forall v :: v in RecursiveUnion(edges, found, working) <==> ReachesStrictly(edges, start, v)
    decreases |Targets(edges) - found|, |working|
  {
    if working == {} {
      assert found - working == found;
      forall v | ReachesStrictly(edges, start, v) ensures v in found {
        var n: nat :| n >= 1 && Walk(edges, start, v, n);
        var c :| (start, c) in edges && Walk(edges, c, v, n - 1);
        assert (start, c).1 in Successors(edges, {start});
        ClosedUnderWalks(edges, found, c, v, n - 1);
      }
    } else {
      var added := Successors(edges, working) - found;
      RoundShrinks(edges, found, added);
      forall v | v in added ensures ReachesStrictly(edges, start, v) {
        var e :| e in edges && e.0 in working && e.1 == v;
        StrictOrSame(edges, start, e.0);
        ReachesThenEdge(edges, start, e.0, v);
      }
      forall v | v in Successors(edges, (found + added) - added) ensures v in found + added {
        var e :| e in edges && e.0 in (found + added) - added && e.1 == v;
        if e.0 in working {
          assert v in Successors(edges, working);
        } else {
          assert v in Successors(edges, found - working);
        }
      }
      RecursiveUnionIsReachability(edges, start, found + added, added);
    }
  }

  lemma {:induction false} ClosedUnderWalks<T(!new)>(edges: set<(T, T)>, closed: set<T>, a: T, b: T, n: nat)
    requires a in closed && Successors(edges, closed) <= closed && Walk(edges, a, b, n)
    ensures b in closed
    decreases n
  {
    if n > 0 {
      var c :| (a, c) in edges && Walk(edges, c, b, n - 1);
      assert (a, c).1 in Successors(edges, closed);
      ClosedUnderWalks(edges, closed, c, b, n - 1);
    }
  }
}
