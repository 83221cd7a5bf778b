/**
 * The graph projection of transclusion groups: one `XANADU_LINK` edge for each pair of members, drawn
 * after commit, one projection at a time, from tables that other commands keep changing.
 */
module Projection {
  import opened Common
  import opened Normalise
  import opened Sorting
  import opened Transclusion
  import opened Uuids

  /** The `XANADU_LINK` edges; MERGE keeps one edge for each directed pair, labelled with its group. */
  type LinkGraph = map<(EntityRef, EntityRef), Id>

  datatype Job = Job(groupId: Id, mergedGroupId: Option<Id>)

  /** The order of entity refs as text: notes before tasks, then by id. */
  predicate RefAtMost(a: EntityRef, b: EntityRef) {
    if Kind(a) != Kind(b) then Kind(a) < Kind(b) else a.id <= b.id
  }

  function Kind(r: EntityRef): nat {
    match r
    case Epic(_) => 0
    case Memory(_) => 1
    case Note(_) => 2
    case Task(_) => 3
  }

  predicate RefBefore(a: EntityRef, b: EntityRef) {
    RefAtMost(a, b) && a != b
  }

  /** An entity ref as it is printed. */
  function RefText(r: EntityRef): string {
    match r
    case Epic(id) => "epic:" + UuidText(id)
    case Memory(id) => "memory:" + UuidText(id)
    case Note(id) => "note:" + UuidText(id)
    case Task(id) => "task:" + UuidText(id)
  }

  /** The code sorts refs as text; that order is by kind and then by id. */
  lemma RefOrderIsTextOrder(a: EntityRef, b: EntityRef)
    requires IsUuid(a.id) && IsUuid(b.id)
    ensures RefAtMost(a, b) <==> TextAtMost(RefText(a), RefText(b))
    ensures RefText(a) == RefText(b) <==> a == b
  {
    UuidTextOrder(a.id, b.id);
    if Kind(a) == Kind(b) {
      var prefix := if a.Epic? then "epic:" else if a.Memory? then "memory:" else if a.Note? then "note:" else "task:";
      assert RefText(a) == prefix + UuidText(a.id) && RefText(b) == prefix + UuidText(b.id);
      TextInParts(prefix, prefix, UuidText(a.id), UuidText(b.id));
      assert RefText(a)[|prefix|..] == UuidText(a.id) && RefText(b)[|prefix|..] == UuidText(b.id);
    } else {
      assert RefText(a)[0] != RefText(b)[0];
    }
  }

  lemma RefOrder()
    ensures TotalOrder(RefAtMost)
  {
  }

  predicate MemberOf(g: Grouped, groupId: Id, r: EntityRef) {
    g.Has(r) && g.Row(r).transclusionId == Some(groupId)
  }

  function MemberIds(rows: TextTable, groupId: Id): set<Id> {
    set id | id in rows && rows[id].transclusionId == Some(groupId)
  }

  /** Two members of one group, in order: the pair that the projection owes an edge. */
  predicate Paired(g: Grouped, a: EntityRef, b: EntityRef) {
    RefBefore(a, b) && g.Has(a) && g.Has(b) && g.Row(a).transclusionId.Some?
      && g.Row(a).transclusionId == g.Row(b).transclusionId
  }

  /** The edges are exactly the cliques of the live groups. */
  ghost predicate IsCanonical(edges: LinkGraph, g: Grouped) {
    forall a, b :: ((a, b) in edges <==> Paired(g, a, b))
      && (Paired(g, a, b) ==> Some(edges[(a, b)]) == g.Row(a).transclusionId)
  }

  function DropLabel(edges: LinkGraph, groupId: Id): LinkGraph {
    map e | e in edges && edges[e] != groupId :: edges[e]
  }

  /** What one projection, undisturbed, does to the edges. */
  ghost predicate Reprojected(before: LinkGraph, after: LinkGraph, g: Grouped, job: Job) {
    forall a, b ::
      if RefBefore(a, b) && MemberOf(g, job.groupId, a) && MemberOf(g, job.groupId, b) then
        (a, b) in after && after[(a, b)] == job.groupId
      else
        && ((a, b) in after <==>
              (a, b) in before && before[(a, b)] != job.groupId && Some(before[(a, b)]) != job.mergedGroupId)
        && ((a, b) in after ==> after[(a, b)] == before[(a, b)])
  }

  // ---------------------------------------------------------------------------------------------
  // Reading the members and listing the edges
  // ---------------------------------------------------------------------------------------------

  /** `ORDER BY note_id`: the ids of a finite set in increasing order. */
  function InOrder(ids: set<Id>): (r: seq<Id>)
    ensures forall id :: id in r <==> id in ids
    ensures forall i, j | 0 <= i < j < |r| :: r[i] < r[j]
  {
    if ids == {} then []
    else
      LeastExists(ids);
      var least: Id :| least in ids && forall id | id in ids :: least <= id;
      [least] + InOrder(ids - {least})
  }

  lemma LeastExists(ids: set<Id>)
    requires ids != {}
    ensures exists least :: least in ids && forall id | id in ids :: least <= id
  {
    var lt := (a: Id, b: Id) => a < b;
    MinimalExists(lt, ids);
    var least :| least in ids && forall id | id in ids :: !lt(id, least);
    forall id | id in ids ensures least <= id { assert !lt(id, least); }
  }

  /** The sorted member refs that a projection draws between. */
  function SortedRefs(notes: set<Id>, tasks: set<Id>): (refs: seq<EntityRef>)
    ensures StrictlySorted(RefAtMost, refs)
    ensures forall r :: r in refs <==> (r.Note? && r.id in notes) || (r.Task? && r.id in tasks)
  {
    RefOrder();
    var first := RefsOf(InOrder(notes), false);
    var second := RefsOf(InOrder(tasks), true);
    var sorted := Sort(RefAtMost, first + second);
    SameMultisetSameElements(sorted, first + second);
    RefsAreDistinct(first, second, sorted);
    sorted
  }

  function RefsOf(ids: seq<Id>, asTask: bool): (refs: seq<EntityRef>)
    ensures |refs| == |ids| && forall i | 0 <= i < |ids| :: refs[i] == RefTo(asTask, ids[i])
  {
    seq(|ids|, i requires 0 <= i < |ids| => RefTo(asTask, ids[i]))
  }

  lemma RefsAreDistinct(first: seq<EntityRef>, second: seq<EntityRef>, sorted: seq<EntityRef>)
    requires forall i, j | 0 <= i < j < |first| :: first[i] != first[j]
    requires forall i, j | 0 <= i < j < |second| :: second[i] != second[j]
    requires forall a, b | a in first && b in second :: a != b
    requires Sorted(RefAtMost, sorted) && multiset(sorted) == multiset(first + second)
    ensures StrictlySorted(RefAtMost, sorted)
  {
    var all := first + second;
    forall i, j | 0 <= i < j < |all| ensures all[i] != all[j] {
      if i < |first| <= j { assert all[i] in first && all[j] in second; }
    }
    forall i, j | 0 <= i < j < |sorted| ensures sorted[i] != sorted[j] {
      if sorted[i] == sorted[j] {
        TwiceMeansTwo(sorted, i, j);
        assert multiset(all)[sorted[i]] >= 2;
        DistinctMeansOnce(all, sorted[i]);
      }
    }
  }

  lemma TwiceMeansTwo(xs: seq<EntityRef>, i: nat, j: nat)
    requires i < j < |xs| && xs[i] == xs[j]
    ensures multiset(xs)[xs[i]] >= 2
  {
    assert xs == xs[..i] + [xs[i]] + xs[i + 1..j] + [xs[j]] + xs[j + 1..];
  }

  lemma {:induction false} DistinctMeansOnce(xs: seq<EntityRef>, x: EntityRef)
    requires forall i, j | 0 <= i < j < |xs| :: xs[i] != xs[j]
    ensures multiset(xs)[x] <= 1
    decreases |xs|
  {
    if xs != [] {
      DistinctMeansOnce(xs[1..], x);
      assert xs == [xs[0]] + xs[1..];
      if xs[0] == x { assert x !in xs[1..]; assert x !in multiset(xs[1..]); }
    }
  }

  /** The nested loops: each ref paired with every later one. */
  function Pairs(refs: seq<EntityRef>): seq<(EntityRef, EntityRef)> {
    if refs == [] then []
    else seq(|refs| - 1, i requires 0 <= i < |refs| - 1 => (refs[0], refs[i + 1])) + Pairs(refs[1..])
  }

  lemma {:induction false} PairsAreOrderedPairs(refs: seq<EntityRef>, a: EntityRef, b: EntityRef)
    requires StrictlySorted(RefAtMost, refs)
    ensures (a, b) in Pairs(refs) <==> a in refs && b in refs && RefBefore(a, b)
    decreases |refs|
  {
    if refs != [] {
      var head := seq(|refs| - 1, i requires 0 <= i < |refs| - 1 => (refs[0], refs[i + 1]));
      PairsAreOrderedPairs(refs[1..], a, b);
      assert refs == [refs[0]] + refs[1..];
      if a == refs[0] && b in refs[1..] {
        var k :| 0 <= k < |refs[1..]| && refs[1..][k] == b;
        assert head[k] == (a, b);
      }
      RefOrder();
    }
  }

  lemma SortedRefsAreMembers(g: Grouped, groupId: Id, refs: seq<EntityRef>)
    requires refs == SortedRefs(MemberIds(g.notes, groupId), MemberIds(g.tasks, groupId))
    ensures forall r :: r in refs <==> MemberOf(g, groupId, r)
  {
    var notes, tasks := MemberIds(g.notes, groupId), MemberIds(g.tasks, groupId);
    forall r ensures MemberOf(g, groupId, r) <==> (r.Note? && r.id in notes) || (r.Task? && r.id in tasks) {}
  }

  // ---------------------------------------------------------------------------------------------
  // One projection, undisturbed
  // ---------------------------------------------------------------------------------------------

  class GraphProjection {
    var edges: LinkGraph

    constructor ()
      ensures edges == map[]
    {
      edges := map[];
    }

    method DeleteEdgesOf(groupId: Id)
      modifies this
      ensures edges == DropLabel(old(edges), groupId)
    {
      edges := DropLabel(edges, groupId);
    }

    /** `reproject_transclusion_group` with no commit in between. */
    method ReprojectTransclusionGroup(g: Grouped, job: Job)
      modifies this
      ensures Reprojected(old(edges), edges, g, job)
    {
      if job.mergedGroupId.Some? {
        DeleteEdgesOf(job.mergedGroupId.value);
      }
      DeleteEdgesOf(job.groupId);
      var refs := SortedRefs(MemberIds(g.notes, job.groupId), MemberIds(g.tasks, job.groupId));
      ghost var dropped := edges;
      DrawClique(refs, job.groupId);
      SortedRefsAreMembers(g, job.groupId, refs);
      ConnectsIsReprojected(old(edges), dropped, edges, g, job, refs);
    }

    method DrawClique(refs: seq<EntityRef>, groupId: Id)
      requires StrictlySorted(RefAtMost, refs)
      modifies this
      ensures forall a, b :: Connects(old(edges), edges, refs, groupId, a, b)
    {
      for left := 0 to |refs|
        invariant Drawn(old(edges), edges, refs, groupId, left, left + 1)
      {
        for right := left + 1 to |refs|
          invariant Drawn(old(edges), edges, refs, groupId, left, right)
        {
          edges := edges[(refs[left], refs[right]) := groupId];
        }
      }
      DrawnAll(old(edges), edges, refs, groupId);
    }
  }

  /** The edges drawn once the loops stand before the pair `(left, right)`. */
  ghost predicate Drawn(before: LinkGraph, after: LinkGraph, refs: seq<EntityRef>, groupId: Id, left: nat, right: nat) {
    && (forall i, j | 0 <= i < j < |refs| && (i < left || (i == left && j < right)) ::
          (refs[i], refs[j]) in after && after[(refs[i], refs[j])] == groupId)
    && (forall e | e in after :: (e in before && after[e] == before[e]) || (after[e] == groupId && PairOf(refs, e)))
    && (forall e | e in before :: e in after && (after[e] == before[e] || (after[e] == groupId && PairOf(refs, e))))
  }

  /** The pair has its edge if it is an ordered pair of refs, and is as before otherwise. */
  ghost predicate Connects(before: LinkGraph, after: LinkGraph, refs: seq<EntityRef>, groupId: Id, a: EntityRef,
      b: EntityRef) {
    if a in refs && b in refs && RefBefore(a, b) then (a, b) in after && after[(a, b)] == groupId
    else ((a, b) in after <==> (a, b) in before) && ((a, b) in after ==> after[(a, b)] == before[(a, b)])
  }

  ghost predicate PairOf(refs: seq<EntityRef>, e: (EntityRef, EntityRef)) {
    e.0 in refs && e.1 in refs && RefBefore(e.0, e.1)
  }

  lemma DrawnAll(before: LinkGraph, after: LinkGraph, refs: seq<EntityRef>, groupId: Id)
    requires StrictlySorted(RefAtMost, refs)
    requires Drawn(before, after, refs, groupId, |refs|, |refs| + 1)
    ensures forall a, b :: Connects(before, after, refs, groupId, a, b)
  {
    forall a, b ensures Connects(before, after, refs, groupId, a, b) {
      if PairOf(refs, (a, b)) {
        OrderedPositions(refs, a, b);
      } else {
        Elsewhere(before, after, refs, groupId, (a, b));
      }
    }
  }

  lemma Elsewhere(before: LinkGraph, after: LinkGraph, refs: seq<EntityRef>, groupId: Id, e: (EntityRef, EntityRef))
    requires Drawn(before, after, refs, groupId, |refs|, |refs| + 1) && !PairOf(refs, e)
    ensures e in after <==> e in before
    ensures e in after ==> after[e] == before[e]
  {
  }

  lemma OrderedPositions(refs: seq<EntityRef>, a: EntityRef, b: EntityRef)
    requires StrictlySorted(RefAtMost, refs) && PairOf(refs, (a, b))
    ensures exists i, j | 0 <= i < j < |refs| :: refs[i] == a && refs[j] == b
  {
    RefOrder();
    var i :| 0 <= i < |refs| && refs[i] == a;
    var j :| 0 <= j < |refs| && refs[j] == b;
    assert i < j;
  }

  lemma ConnectsIsReprojected(before: LinkGraph, dropped: LinkGraph, after: LinkGraph, g: Grouped, job: Job,
      refs: seq<EntityRef>)
    requires var unmerged := if job.mergedGroupId.Some? then DropLabel(before, job.mergedGroupId.value) else before;
             dropped == DropLabel(unmerged, job.groupId)
    requires forall r :: r in refs <==> MemberOf(g, job.groupId, r)
    requires forall a, b :: Connects(dropped, after, refs, job.groupId, a, b)
    ensures Reprojected(before, after, g, job)
  {
    forall a, b
      ensures if RefBefore(a, b) && MemberOf(g, job.groupId, a) && MemberOf(g, job.groupId, b) then
                (a, b) in after && after[(a, b)] == job.groupId
              else
                && ((a, b) in after <==>
                      (a, b) in before && before[(a, b)] != job.groupId && Some(before[(a, b)]) != job.mergedGroupId)
                && ((a, b) in after ==> after[(a, b)] == before[(a, b)])
    {
      assert Connects(dropped, after, refs, job.groupId, a, b);
    }
  }
}
