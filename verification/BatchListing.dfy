/** Task list entries assembled from batch reads, against the reads of one task at a time. */
module BatchListing {
  import opened Common
  import opened Sorting
  import opened Tables
  import opened Listing
  import opened Claims

  /** What the batch reads see: the board, and the epic records. */
  datatype Source = Source(board: Board, epics: map<Id, string>)

  datatype Entry = Entry(
    taskId: Id,
    activeClaim: Option<ClaimRow>,
    dependencies: seq<Id>,
    dependents: seq<Id>,
    epic: Option<string>,
    ready: bool)

  /** A joined dependency row: the task asked about and the task at the other end. */
  type Row = (Id, Id)

  function Near(e: (Id, Id), reverse: bool): Id { if reverse then e.1 else e.0 }
  function Far(e: (Id, Id), reverse: bool): Id { if reverse then e.0 else e.1 }

  /** `task_dependencies JOIN tasks` on the far end. */
  function Joined(c: Catalog, reverse: bool): set<Row> {
    set e | e in c.dependencies && Far(e, reverse) in c.tasks :: (Near(e, reverse), Far(e, reverse))
  }

  /** `a` sorts before `b`: by the task asked about, then the far task's creation time, latest first. */
  predicate RowBefore(c: Catalog, a: Row, b: Row) {
    a.0 < b.0 || (a.0 == b.0 && a.1 in c.tasks && b.1 in c.tasks && c.tasks[a.1].createdAt > c.tasks[b.1].createdAt)
  }

  // ---------------------------------------------------------------------------------------------
  // The reads of one task
  // ---------------------------------------------------------------------------------------------

  ghost predicate LatestFirst(c: Catalog, ids: seq<Id>) {
    && (forall id | id in ids :: id in c.tasks)
    && (forall i, j | 0 <= i < j < |ids| :: ids[i] != ids[j] && c.tasks[ids[i]].createdAt >= c.tasks[ids[j]].createdAt)
  }

  /** An answer of `fetch_dependency_rows`: the joined far ends, each once, latest first. */
  ghost predicate IsDependencyAnswer(c: Catalog, id: Id, reverse: bool, ids: seq<Id>) {
    && (forall other :: other in ids <==> (id, other) in Joined(c, reverse))
    && LatestFirst(c, ids)
  }

  /** In terms of the edges: the tasks this one depends on, or those that depend on it, as far as they are stored. */
  lemma DependencyAnswerMeansEdges(c: Catalog, id: Id, ids: seq<Id>, other: Id)
    ensures IsDependencyAnswer(c, id, false, ids) ==>
              (other in ids <==> (id, other) in c.dependencies && other in c.tasks)
    ensures IsDependencyAnswer(c, id, true, ids) ==>
              (other in ids <==> (other, id) in c.dependencies && other in c.tasks)
  {
    assert (id, other) in Joined(c, false) <==> (id, other) in c.dependencies && other in c.tasks;
    if (other, id) in c.dependencies && other in c.tasks {
      assert Near((other, id), true) == id && Far((other, id), true) == other;
    }
  }

  /** With distinct creation times there is only one answer. */
  lemma DependencyAnswerIsUnique(c: Catalog, id: Id, reverse: bool, xs: seq<Id>, ys: seq<Id>)
    requires IsDependencyAnswer(c, id, reverse, xs) && IsDependencyAnswer(c, id, reverse, ys)
    requires forall a, b | a in c.tasks && b in c.tasks && a != b :: c.tasks[a].createdAt != c.tasks[b].createdAt
    ensures xs == ys
  {
    var lt := (a: Id, b: Id) => a in c.tasks && b in c.tasks && c.tasks[a].createdAt > c.tasks[b].createdAt;
    IncreasingIsUnique(lt, xs, ys);
  }

  /**
   * An answer of `fetch_active_claim`: an active claim of the latest `claimed_at`, whichever the database picks
   * among ties.
   */
  ghost predicate IsClaimAnswer(claims: seq<ClaimRow>, id: Id, now: Time, answer: Option<ClaimRow>) {
    match answer
    case None => forall c | c in claims :: !IsActive(c, id, now)
    case Some(row) =>
      && row in claims && IsActive(row, id, now)
      && forall c | c in claims && IsActive(c, id, now) :: c.claimedAt <= row.claimedAt
  }

  /** On the board of any run there is only one answer, for at most one claim of a task is active. */
  lemma ClaimAnswerIsUnique(b: Board, id: Id, now: Time, answer: Option<ClaimRow>)
    requires Sound(b, now)
    ensures IsClaimAnswer(b.claims, id, now, answer) <==> answer == FetchActiveClaim(b.claims, id, now)
  {
    var single := FetchActiveClaim(b.claims, id, now);
    if answer.Some? && single.Some? && IsClaimAnswer(b.claims, id, now, answer) {
      var i :| 0 <= i < |b.claims| && b.claims[i] == answer.value;
      var j :| 0 <= j < |b.claims| && b.claims[j] == single.value;
      ActiveClaimIsUnique(b, now, id, i, j);
    }
  }

  /** `epic_id.and_then(...)`: the record of the task's epic. */
  function EpicOf(s: Source, id: Id): Option<string> {
    var tasks := s.board.catalog.tasks;
    if id in tasks && tasks[id].epicId.Some? && tasks[id].epicId.value in s.epics
    then Some(s.epics[tasks[id].epicId.value])
    else None
  }

  // ---------------------------------------------------------------------------------------------
  // What a list of entries promises
  // ---------------------------------------------------------------------------------------------

  ghost predicate FirstOf(ids: seq<Id>, i: nat)
    requires i < |ids|
  {
    forall j | 0 <= j < i :: ids[j] != ids[i]
  }

  /** No earlier listed task names the same epic. */
  ghost predicate FirstOfEpic(s: Source, ids: seq<Id>, i: nat)
    requires i < |ids| && forall id | id in ids :: id in s.board.catalog.tasks
  {
    forall j | 0 <= j < i :: s.board.catalog.tasks[ids[j]].epicId != s.board.catalog.tasks[ids[i]].epicId
  }

  /** Entry `i` agrees with the single reads; a task listed again comes with no claim and no edges. */
  ghost predicate Agrees(s: Source, now: Time, ids: seq<Id>, i: nat, e: Entry)
    requires i < |ids| && forall id | id in ids :: id in s.board.catalog.tasks
  {
    var c, id := s.board.catalog, ids[i];
    && e.taskId == id
    && TaskIsReady(c, id) == Ok(e.ready)
    && e.epic == (if FirstOfEpic(s, ids, i) then EpicOf(s, id) else None)
    && if FirstOf(ids, i) then
         && IsClaimAnswer(s.board.claims, id, now, e.activeClaim)
         && IsDependencyAnswer(c, id, false, e.dependencies)
         && IsDependencyAnswer(c, id, true, e.dependents)
       else e.activeClaim == None && e.dependencies == [] && e.dependents == []
  }

  // ---------------------------------------------------------------------------------------------
  // The batch reads
  // ---------------------------------------------------------------------------------------------

  /** `a` sorts before `b`: by task, then by the time of the claim, latest first. */
  predicate ClaimBefore(a: ClaimRow, b: ClaimRow) {
    a.taskId < b.taskId || (a.taskId == b.taskId && a.claimedAt > b.claimedAt)
  }

  /** No row of the same task has a later claim time. */
  ghost predicate IsLatest(row: ClaimRow, rows: seq<ClaimRow>) {
    forall r | r in rows && r.taskId == row.taskId :: r.claimedAt <= row.claimedAt
  }

  /** DISTINCT ON (task_id): of the rows of each task, the first. */
  method DistinctOnTask(rows: seq<ClaimRow>) returns (found: map<Id, ClaimRow>)
    requires InOrderOf(ClaimBefore, rows)
    ensures forall r | r in rows :: r.taskId in found
    ensures forall id | id in found :: found[id] in rows && found[id].taskId == id && IsLatest(found[id], rows)
  {
    found := map[];
    for n := 0 to |rows|
      invariant forall k | 0 <= k < n :: rows[k].taskId in found
      invariant forall id | id in found :: found[id] in rows && found[id].taskId == id && IsLatest(found[id], rows)
    {
      var row := rows[n];
      if row.taskId !in found {
        FirstIsLatest(rows, n);
        found := found[row.taskId := row];
      }
    }
  }

  lemma FirstIsLatest(rows: seq<ClaimRow>, n: nat)
    requires InOrderOf(ClaimBefore, rows) && n < |rows|
    requires forall k | 0 <= k < n :: rows[k].taskId != rows[n].taskId
    ensures IsLatest(rows[n], rows)
  {
    forall r | r in rows && r.taskId == rows[n].taskId ensures r.claimedAt <= rows[n].claimedAt {
      var k :| 0 <= k < |rows| && rows[k] == r;
      assert k == n || !ClaimBefore(rows[k], rows[n]);
    }
  }

  /**
   * The active claims of the listed tasks, by task and falling claim time with ties open, the first of each
   * task kept.
   */
  method FetchActiveClaims(claims: seq<ClaimRow>, ids: seq<Id>, now: Time) returns (found: map<Id, ClaimRow>)
    ensures forall id | id in ids :: IsClaimAnswer(claims, id, now, Lookup(found, id))
    ensures forall id | id in found :: id in ids
  {
    var rows := ReadInOrder(ClaimBefore, set c | c in claims && c.taskId in ids && IsActive(c, c.taskId, now));
    found := DistinctOnTask(rows);
    forall id | id in ids ensures IsClaimAnswer(claims, id, now, Lookup(found, id)) {
      assert forall c | c in claims && IsActive(c, id, now) :: c in rows;
    }
  }

  ghost predicate InRowOrder(c: Catalog, rows: seq<Row>) {
    forall i, j | 0 <= i < j < |rows| :: rows[i] != rows[j] && !RowBefore(c, rows[j], rows[i])
  }

  /** The selected rows in the order of the query. */
  method OrderRows(c: Catalog, selected: set<Row>) returns (rows: seq<Row>)
    ensures forall r :: r in rows <==> r in selected
    ensures InRowOrder(c, rows)
  {
    var lt := (a: Row, b: Row) => RowBefore(c, a, b);
    rows := ReadInOrder(lt, selected);
    forall i, j | 0 <= i < j < |rows| ensures rows[i] != rows[j] && !RowBefore(c, rows[j], rows[i]) {
      assert !lt(rows[j], rows[i]);
    }
  }

  /** The far ends of the rows of one task, in row order. */
  function FarEnds(rows: seq<Row>, id: Id): seq<Id> {
    if rows == [] then []
    else
      var rest, last := FarEnds(rows[..|rows| - 1], id), rows[|rows| - 1];
      if last.0 == id then rest + [last.1] else rest
  }

  /** The rows pushed onto one vector for each task asked about. */
  method GroupRows(rows: seq<Row>) returns (groups: map<Id, seq<Id>>)
    ensures forall id :: id in groups <==> FarEnds(rows, id) != []
    ensures forall id | id in groups :: groups[id] == FarEnds(rows, id)
  {
    groups := map[];
    for n := 0 to |rows|
      invariant forall id :: id in groups <==> FarEnds(rows[..n], id) != []
      invariant forall id | id in groups :: groups[id] == FarEnds(rows[..n], id)
    {
      var (id, far) := rows[n];
      assert rows[..n + 1][..n] == rows[..n];
      var vector := if id in groups then groups[id] else [];
      groups := groups[id := vector + [far]];
    }
    assert rows[..|rows|] == rows;
  }

  /** The vector of a listed task is an answer to its own query. */
  lemma {:induction false} FarEndsOfRows(c: Catalog, rows: seq<Row>, id: Id)
    requires InRowOrder(c, rows) && forall r | r in rows :: r.1 in c.tasks
    ensures forall other :: other in FarEnds(rows, id) <==> (id, other) in rows
    ensures LatestFirst(c, FarEnds(rows, id))
    decreases |rows|
  {
    if rows != [] {
      var front, last := rows[..|rows| - 1], rows[|rows| - 1];
      assert rows == front + [last];
      assert forall r | r in front :: r in rows;
      FarEndsOfRows(c, front, id);
      if last.0 == id {
        var ids := FarEnds(front, id);
        assert FarEnds(rows, id) == ids + [last.1];
        forall i | 0 <= i < |ids|
          ensures ids[i] != last.1 && ids[i] in c.tasks && c.tasks[ids[i]].createdAt >= c.tasks[last.1].createdAt
        {
          assert ids[i] in ids && (id, ids[i]) in front;
          var k :| 0 <= k < |front| && front[k] == (id, ids[i]);
          assert rows[k] == front[k] && rows[k] != rows[|rows| - 1] && !RowBefore(c, rows[|rows| - 1], rows[k]);
        }
      }
    }
  }

  /** `fetch_dependency_rows`: the read of one task. */
  method FetchDependencyRows(c: Catalog, id: Id, reverse: bool) returns (ids: seq<Id>)
    ensures IsDependencyAnswer(c, id, reverse, ids)
  {
    var rows := OrderRows(c, set r | r in Joined(c, reverse) && r.0 == id);
    FarEndsOfRows(c, rows, id);
    assert forall other :: (id, other) in rows <==> (id, other) in Joined(c, reverse);
    ids := FarEnds(rows, id);
  }

  method FetchDependencyRowsForTasks(c: Catalog, ids: seq<Id>, reverse: bool) returns (groups: map<Id, seq<Id>>)
    ensures forall id | id in ids :: IsDependencyAnswer(c, id, reverse, Lookup(groups, id).UnwrapOr([]))
  {
    var rows := OrderRows(c, set r | r in Joined(c, reverse) && r.0 in ids);
    groups := GroupRows(rows);
    forall id | id in ids ensures IsDependencyAnswer(c, id, reverse, Lookup(groups, id).UnwrapOr([])) {
      FarEndsOfRows(c, rows, id);
      assert forall other :: (id, other) in rows <==> (id, other) in Joined(c, reverse);
      assert FarEnds(rows, id) == Lookup(groups, id).UnwrapOr([]);
    }
  }

  method FetchEpicsForTasks(s: Source, ids: seq<Id>) returns (found: map<Id, string>)
    requires forall id | id in ids :: id in s.board.catalog.tasks
    ensures forall id | id in ids && EpicOf(s, id).Some? ::
              var epicId := s.board.catalog.tasks[id].epicId.value;
              epicId in found && found[epicId] == s.epics[epicId]
    ensures forall epicId | epicId in found :: epicId in s.epics && found[epicId] == s.epics[epicId]
  {
    var wanted: set<Id> := {};
    for n := 0 to |ids|
      invariant forall id | id in ids[..n] && EpicOf(s, id).Some? :: s.board.catalog.tasks[id].epicId.value in wanted
    {
      assert ids[..n + 1] == ids[..n] + [ids[n]];
      var epicId := s.board.catalog.tasks[ids[n]].epicId;
      if epicId.Some? { wanted := wanted + {epicId.value}; }
    }
    assert ids[..|ids|] == ids;
    found := map epicId | epicId in wanted && epicId in s.epics :: s.epics[epicId];
  }

  method FetchReadyStates(c: Catalog, ids: seq<Id>) returns (found: map<Id, bool>)
    ensures forall id | id in ids && id in c.tasks :: id in found && TaskIsReady(c, id) == Ok(found[id])
  {
    found := map[];
    for n := 0 to |ids|
      invariant forall id | id in ids[..n] && id in c.tasks :: id in found && TaskIsReady(c, id) == Ok(found[id])
    {
      assert ids[..n + 1] == ids[..n] + [ids[n]];
      if ids[n] in c.tasks {
        ReadinessAgrees(c, ids[n]);
        found := found[ids[n] := ReadyState(c, ids[n])];
      }
    }
    assert ids[..|ids|] == ids;
  }

  /** `rest` is `table` after the entries of the `taken` keys were removed. */
  ghost predicate IsDrained<V>(rest: map<Id, V>, table: map<Id, V>, taken: set<Id>) {
    rest == table - taken
  }

  lemma DrainsOneMore<V>(rest: map<Id, V>, table: map<Id, V>, taken: set<Id>, id: Id)
    requires IsDrained(rest, table, taken)
    ensures IsDrained(rest - {id}, table, taken + {id})
  {}

  function Listed(ids: seq<Id>): set<Id> { set id | id in ids }

  /** The epics named by listed tasks. */
  function EpicsNamed(s: Source, ids: seq<Id>): set<Id>
    requires forall id | id in ids :: id in s.board.catalog.tasks
  {
    set id | id in ids && s.board.catalog.tasks[id].epicId.Some? :: s.board.catalog.tasks[id].epicId.value
  }

  /** The five batch reads of one list. */
  datatype Batch = Batch(
    claims: map<Id, ClaimRow>,
    dependencies: map<Id, seq<Id>>,
    dependents: map<Id, seq<Id>>,
    epics: map<Id, string>,
    ready: map<Id, bool>)

  /** The batch holds what the single reads give for every listed task. */
  ghost predicate Covers(s: Source, now: Time, ids: seq<Id>, b: Batch)
    requires forall id | id in ids :: id in s.board.catalog.tasks
  {
    forall id | id in ids ::
      && IsClaimAnswer(s.board.claims, id, now, Lookup(b.claims, id))
      && IsDependencyAnswer(s.board.catalog, id, false, Lookup(b.dependencies, id).UnwrapOr([]))
      && IsDependencyAnswer(s.board.catalog, id, true, Lookup(b.dependents, id).UnwrapOr([]))
      && LookupEpic(s, b.epics, id) == EpicOf(s, id)
      && id in b.ready && TaskIsReady(s.board.catalog, id) == Ok(b.ready[id])
  }

  function Lookup<V>(table: map<Id, V>, id: Id): Option<V> {
    if id in table then Some(table[id]) else None
  }

  function LookupEpic(s: Source, epics: map<Id, string>, id: Id): Option<string>
    requires id in s.board.catalog.tasks
  {
    var epicId := s.board.catalog.tasks[id].epicId;
    if epicId.Some? then Lookup(epics, epicId.value) else None
  }

  method ReadBatch(s: Source, ids: seq<Id>, now: Time) returns (b: Batch)
    requires forall id | id in ids :: id in s.board.catalog.tasks
    ensures Covers(s, now, ids, b)
  {
    var claims := FetchActiveClaims(s.board.claims, ids, now);
    var dependencies := FetchDependencyRowsForTasks(s.board.catalog, ids, false);
    var dependents := FetchDependencyRowsForTasks(s.board.catalog, ids, true);
    var epics := FetchEpicsForTasks(s, ids);
    var ready := FetchReadyStates(s.board.catalog, ids);
    b := Batch(claims, dependencies, dependents, epics, ready);
  }

  /** The entry built from the undrained part of a batch agrees with the single reads. */
  lemma EntryAgrees(s: Source, now: Time, ids: seq<Id>, n: nat, b: Batch, rest: Batch, e: Entry)
    requires n < |ids| && forall id | id in ids :: id in s.board.catalog.tasks
    requires Covers(s, now, ids, b)
    requires Undrained(s, ids, n, b, rest)
    requires e == Entry(ids[n], Lookup(rest.claims, ids[n]), Lookup(rest.dependencies, ids[n]).UnwrapOr([]),
                        Lookup(rest.dependents, ids[n]).UnwrapOr([]), LookupEpic(s, rest.epics, ids[n]),
                        Lookup(b.ready, ids[n]).UnwrapOr(false))
    ensures Agrees(s, now, ids, n, e)
  {
    FirstOfMeansUndrained(s, ids, n);
    assert ids[n] in ids;
  }

  /** What is left of a batch once the entries of the first `n` listed tasks were removed. */
  ghost predicate Undrained(s: Source, ids: seq<Id>, n: nat, b: Batch, rest: Batch)
    requires n <= |ids| && forall id | id in ids :: id in s.board.catalog.tasks
  {
    && IsDrained(rest.claims, b.claims, Listed(ids[..n]))
    && IsDrained(rest.dependencies, b.dependencies, Listed(ids[..n]))
    && IsDrained(rest.dependents, b.dependents, Listed(ids[..n]))
    && IsDrained(rest.epics, b.epics, EpicsNamed(s, ids[..n]))
    && rest.ready == b.ready
  }

  /** The batch after one task's entries were removed from it. */
  function Taken(s: Source, rest: Batch, id: Id): Batch
    requires id in s.board.catalog.tasks
  {
    var epicId := s.board.catalog.tasks[id].epicId;
    Batch(rest.claims - {id}, rest.dependencies - {id}, rest.dependents - {id},
          if epicId.Some? then rest.epics - {epicId.value} else rest.epics, rest.ready)
  }

  lemma UndrainedByOneLess(s: Source, ids: seq<Id>, n: nat, b: Batch, rest: Batch)
    requires n < |ids| && forall id | id in ids :: id in s.board.catalog.tasks
    requires Undrained(s, ids, n, b, rest)
    ensures Undrained(s, ids, n + 1, b, Taken(s, rest, ids[n]))
  {
    var id, listed, named := ids[n], Listed(ids[..n]), EpicsNamed(s, ids[..n]);
    DrainedByOne(s, ids, n);
    DrainsOneMore(rest.claims, b.claims, listed, id);
    DrainsOneMore(rest.dependencies, b.dependencies, listed, id);
    DrainsOneMore(rest.dependents, b.dependents, listed, id);
    var epicId := s.board.catalog.tasks[id].epicId;
    if epicId.Some? { DrainsOneMore(rest.epics, b.epics, named, epicId.value); }
  }

  /**
   * `build_task_list_entries`: every entry agrees with the single reads, whatever the list repeats; on
   * the board of any run its claim is the very claim that the single read returns.
   */
  method BuildTaskListEntries(s: Source, ids: seq<Id>, now: Time) returns (entries: seq<Entry>)
    requires forall id | id in ids :: id in s.board.catalog.tasks
    ensures |entries| == |ids| && forall i | 0 <= i < |ids| :: Agrees(s, now, ids, i, entries[i])
    ensures Sound(s.board, now) ==> forall i | 0 <= i < |ids| && FirstOf(ids, i) ::
              entries[i].activeClaim == FetchActiveClaim(s.board.claims, ids[i], now)
  {
    var b := ReadBatch(s, ids, now);
    var claims, dependencies, dependents, epics := b.claims, b.dependencies, b.dependents, b.epics;
    entries := [];
    for n := 0 to |ids|
      invariant |entries| == n
      invariant forall i | 0 <= i < n :: Agrees(s, now, ids, i, entries[i])
      invariant Undrained(s, ids, n, b, Batch(claims, dependencies, dependents, epics, b.ready))
    {
      var id := ids[n];
      var epicId := s.board.catalog.tasks[id].epicId;
      ghost var rest := Batch(claims, dependencies, dependents, epics, b.ready);
      var entry := Entry(
        id,
        Lookup(claims, id),
        Lookup(dependencies, id).UnwrapOr([]),
        Lookup(dependents, id).UnwrapOr([]),
        LookupEpic(s, epics, id),
        Lookup(b.ready, id).UnwrapOr(false));
      EntryAgrees(s, now, ids, n, b, rest, entry);
      UndrainedByOneLess(s, ids, n, b, rest);
      entries := entries + [entry];
      claims, dependencies, dependents := claims - {id}, dependencies - {id}, dependents - {id};
      if epicId.Some? { epics := epics - {epicId.value}; }
      assert Batch(claims, dependencies, dependents, epics, b.ready) == Taken(s, rest, id);
    }
    if Sound(s.board, now) {
      forall i | 0 <= i < |ids| && FirstOf(ids, i)
        ensures entries[i].activeClaim == FetchActiveClaim(s.board.claims, ids[i], now)
      {
        assert Agrees(s, now, ids, i, entries[i]);
        ClaimAnswerIsUnique(s.board, ids[i], now, entries[i].activeClaim);
      }
    }
  }

  lemma DrainedByOne(s: Source, ids: seq<Id>, n: nat)
    requires n < |ids| && forall id | id in ids :: id in s.board.catalog.tasks
    ensures Listed(ids[..n + 1]) == Listed(ids[..n]) + {ids[n]}
    ensures var epicId := s.board.catalog.tasks[ids[n]].epicId;
            EpicsNamed(s, ids[..n + 1]) == EpicsNamed(s, ids[..n]) + (if epicId.Some? then {epicId.value} else {})
  {
    assert ids[..n + 1] == ids[..n] + [ids[n]];
  }

  lemma FirstOfMeansUndrained(s: Source, ids: seq<Id>, n: nat)
    requires n < |ids| && forall id | id in ids :: id in s.board.catalog.tasks
    ensures FirstOf(ids, n) <==> ids[n] !in ids[..n]
    ensures var epicId := s.board.catalog.tasks[ids[n]].epicId;
            epicId.Some? ==> (FirstOfEpic(s, ids, n) <==> epicId.value !in EpicsNamed(s, ids[..n]))
  {
    var epicId := s.board.catalog.tasks[ids[n]].epicId;
    if epicId.Some? {
      if epicId.value in EpicsNamed(s, ids[..n]) {
        var id :| id in ids[..n] && s.board.catalog.tasks[id].epicId == epicId;
      }
      forall j | 0 <= j < n && s.board.catalog.tasks[ids[j]].epicId == epicId
        ensures epicId.value in EpicsNamed(s, ids[..n])
      {
        assert ids[..n][j] in ids[..n];
      }
    }
  }

  /** A shared epic is carried by exactly one entry: the first listed task that names it. */
  lemma EpicIsCarriedOnce(s: Source, now: Time, ids: seq<Id>, entries: seq<Entry>, epicId: Id, i: nat, j: nat)
    requires forall id | id in ids :: id in s.board.catalog.tasks
    requires |entries| == |ids| && forall k | 0 <= k < |ids| :: Agrees(s, now, ids, k, entries[k])
    requires i < |ids| && j < |ids| && epicId in s.epics
    requires s.board.catalog.tasks[ids[i]].epicId == Some(epicId)
             && s.board.catalog.tasks[ids[j]].epicId == Some(epicId)
    requires entries[i].epic.Some?
    ensures entries[j].epic.Some? <==> i == j
    ensures i <= j
  {
    assert Agrees(s, now, ids, i, entries[i]) && Agrees(s, now, ids, j, entries[j]);
    assert FirstOfEpic(s, ids, i);
    assert FirstOfEpic(s, ids, j) ==> j <= i;
  }

  /** Two listed tasks of one epic, and only the first entry carries it. */
  method SecondEntryLacksItsEpic() returns (s: Source, entries: seq<Entry>)
    ensures EpicOf(s, 1) == EpicOf(s, 2) == Some("epic")
    ensures |entries| == 2 && entries[0].taskId == 1 && entries[1].taskId == 2
    ensures entries[0].epic == Some("epic") && entries[1].epic == None
  {
    var row := TaskRow("w", "title", "details", Open, Some(9), "", None, [], 0, 0);
    s := Source(Board(Catalog(map[1 := row, 2 := row], {}, map[]), [], []), map[9 := "epic"]);
    entries := BuildTaskListEntries(s, [1, 2], 0);
    assert Agrees(s, 0, [1, 2], 0, entries[0]) && Agrees(s, 0, [1, 2], 1, entries[1]);
    assert FirstOfEpic(s, [1, 2], 0) && !FirstOfEpic(s, [1, 2], 1);
  }
}
