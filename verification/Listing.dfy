/** Task listings: filters, readiness, rank order and limit. */
module Listing {
  import opened Common
  import opened Tables
  import opened Normalise
  import opened Sorting

  /** What a listing reads: tasks, dependency edges, and the rank of each workspace priority. */
  datatype Catalog = Catalog(
    tasks: map<Id, TaskRow>,
    dependencies: set<(Id, Id)>,
    ranks: map<(string, string), int>)

  datatype Filters = Filters(
    epicId: Option<Id>,
    wanted: Option<string>,
    owner: Option<string>,
    priority: Option<string>,
    readyOnly: bool,
    status: Option<string>)

  function ParseStatus(value: string): Option<Status> {
    if value == "open" then Some(Open)
    else if value == "claimed" then Some(Claimed)
    else if value == "completed" then Some(Completed)
    else None
  }

  // ---------------------------------------------------------------------------------------------
  // Readiness, as three queries define it
  // ---------------------------------------------------------------------------------------------

  predicate Blocks(c: Catalog, e: (Id, Id), id: Id) {
    e.0 == id && e.1 in c.tasks && c.tasks[e.1].status != Completed
  }

  /** `task_is_ready`: an open task for which the COUNT of unresolved dependencies is zero. */
  function TaskIsReady(c: Catalog, id: Id): Result<bool, Error> {
    if id !in c.tasks then Err(NotFound)
    else if c.tasks[id].status != Open then Ok(false)
    else Ok(|set e | e in c.dependencies && Blocks(c, e, id)| == 0)
  }

  /** The NOT EXISTS clause of a listing. */
  predicate DependenciesResolved(c: Catalog, id: Id) {
    !exists e :: e in c.dependencies && Blocks(c, e, id)
  }

  /** The CASE expression of the batch reader. */
  predicate ReadyState(c: Catalog, id: Id)
    requires id in c.tasks
  {
    if c.tasks[id].status != Open then false
    else if exists e :: e in c.dependencies && Blocks(c, e, id) then false
    else true
  }

  /** The three readiness definitions coincide: the task is open, and every stored task it depends on is completed. */
  lemma ReadinessAgrees(c: Catalog, id: Id)
    ensures id in c.tasks ==>
              && TaskIsReady(c, id) == Ok(ReadyState(c, id))
              && (ReadyState(c, id) <==> c.tasks[id].status == Open && DependenciesResolved(c, id))
    ensures DependenciesResolved(c, id)
            <==> forall other | (id, other) in c.dependencies && other in c.tasks :: c.tasks[other].status == Completed
    ensures id !in c.tasks ==> TaskIsReady(c, id) == Err(NotFound)
  {
    var unresolved := set e | e in c.dependencies && Blocks(c, e, id);
    if e :| e in c.dependencies && Blocks(c, e, id) { assert e in unresolved; }
    if |unresolved| != 0 { var e :| e in unresolved; }
    if DependenciesResolved(c, id) {
      forall other | (id, other) in c.dependencies && other in c.tasks ensures c.tasks[other].status == Completed {
        assert !Blocks(c, (id, other), id);
      }
    }
  }

  // ---------------------------------------------------------------------------------------------
  // What a listing promises
  // ---------------------------------------------------------------------------------------------

  /** The label filter compares the normal form of the requested label, and is no filter when that is empty. */
  ghost predicate LabelSelects(wanted: Option<string>, labels: seq<string>) {
    wanted.Some? && Label(wanted.value) != [] ==> Label(wanted.value) in labels
  }

  ghost predicate Matches(c: Catalog, workspace: string, f: Filters, id: Id) {
    && id in c.tasks
    && var row := c.tasks[id];
    && row.workspace == workspace
    && (f.status.Some? ==> Some(row.status) == ParseStatus(f.status.value))
    && (f.epicId.Some? ==> row.epicId == f.epicId)
    && (f.priority.Some? ==> row.priority == f.priority.value)
    && (Owner(f.owner).Some? ==> row.owner == Owner(f.owner))
    && LabelSelects(f.wanted, row.labels)
    && (f.readyOnly ==> row.status == Open && DependenciesResolved(c, id))
  }

  function Rank(c: Catalog, row: TaskRow): int {
    if (row.workspace, row.priority) in c.ranks then c.ranks[(row.workspace, row.priority)] else 0
  }

  /** `a` must be listed before `b`: by rank, update and creation time for ready tasks, else by creation time. */
  predicate Before(c: Catalog, ranked: bool, a: TaskRow, b: TaskRow) {
    if ranked && Rank(c, a) != Rank(c, b) then Rank(c, a) > Rank(c, b)
    else if ranked && a.updatedAt != b.updatedAt then a.updatedAt > b.updatedAt
    else a.createdAt > b.createdAt
  }

  ghost predicate InListingOrder(c: Catalog, ranked: bool, rows: seq<Id>) {
    && (forall id | id in rows :: id in c.tasks)
    && (forall i, j | 0 <= i < j < |rows| ::
       rows[i] != rows[j] && !Before(c, ranked, c.tasks[rows[j]], c.tasks[rows[i]]))
  }

  /** `rows` is an answer to the query; the order among rows that tie on every key is the database's. */
  ghost predicate IsListing(c: Catalog, workspace: string, f: Filters, limit: Option<nat>, rows: seq<Id>) {
    && InListingOrder(c, f.readyOnly, rows)
    && (forall id | id in rows :: Matches(c, workspace, f, id))
    && (limit.Some? ==> |rows| <= limit.value)
    && (forall id | Matches(c, workspace, f, id) && id !in rows ::
          && limit == Some(|rows|)
          && forall listed | listed in rows :: !Before(c, f.readyOnly, c.tasks[id], c.tasks[listed]))
  }

  /** The status names that a filter knows. */
  lemma StatusNames(value: string)
    ensures ParseStatus("open") == Some(Open) && ParseStatus("claimed") == Some(Claimed)
    ensures ParseStatus("completed") == Some(Completed)
    ensures ParseStatus(value).Some? <==> value in ["open", "claimed", "completed"]
  {
  }

  /**
   * The order of a listing, key by key: latest created first; in a ready listing the highest rank first,
   * zero without a rank, then the latest updated, and creation only then.
   */
  lemma ListingIsByRank(c: Catalog, workspace: string, f: Filters, limit: Option<nat>, rows: seq<Id>, i: nat, j: nat)
    requires IsListing(c, workspace, f, limit, rows) && i < j < |rows|
    ensures rows[i] in c.tasks && rows[j] in c.tasks
    ensures var a, b := c.tasks[rows[i]], c.tasks[rows[j]];
            var m := if (a.workspace, a.priority) in c.ranks then c.ranks[(a.workspace, a.priority)] else 0;
            var n := if (b.workspace, b.priority) in c.ranks then c.ranks[(b.workspace, b.priority)] else 0;
            if f.readyOnly
            then m > n || (m == n && (a.updatedAt > b.updatedAt
                                      || (a.updatedAt == b.updatedAt && a.createdAt >= b.createdAt)))
            else a.createdAt >= b.createdAt
  {
  }

  // ---------------------------------------------------------------------------------------------
  // Building and running the query
  // ---------------------------------------------------------------------------------------------

  /** The conjuncts a listing pushes onto its query. */
  datatype Clause =
    | WorkspaceIs(workspace: string)
    | StatusIs(status: Status)
    | EpicIs(epicId: Id)
    | PriorityIs(priority: string)
    | OwnerIs(owner: string)
    | HasLabel(wanted: string)
    | Resolved

  predicate Holds(c: Catalog, clause: Clause, id: Id)
    requires id in c.tasks
  {
    var row := c.tasks[id];
    match clause
    case WorkspaceIs(w) => row.workspace == w
    case StatusIs(s) => row.status == s
    case EpicIs(e) => row.epicId == Some(e)
    case PriorityIs(p) => row.priority == p
    case OwnerIs(o) => row.owner == Some(o)
    case HasLabel(l) => l in row.labels
    case Resolved => DependenciesResolved(c, id)
  }

  predicate HoldsAll(c: Catalog, clauses: seq<Clause>, id: Id) {
    id in c.tasks && forall clause | clause in clauses :: Holds(c, clause, id)
  }

  /** `fetch_tasks_for_listing`: the early returns, the query built branch by branch, and its run. */
  method FetchTasksForListing(c: Catalog, workspace: string, f: Filters,
      limit: Option<nat>) returns (r: Result<seq<Id>, Error>)
    ensures r.Err? <==> f.status.Some? && ParseStatus(f.status.value).None?
    ensures r.Err? ==> r.error == BadRequest
    ensures r.Ok? ==> IsListing(c, workspace, f, limit, r.value)
  {
    if f.status.Some? && ParseStatus(f.status.value).None? { return Err(BadRequest); }
    if f.readyOnly && (f.status == Some("claimed") || f.status == Some("completed")) { return Ok([]); }
    var clauses := BuildQuery(workspace, f);
    var rows := RunQuery(c, clauses, f.readyOnly, limit);
    forall id ensures HoldsAll(c, clauses, id) <==> Matches(c, workspace, f, id) {
      QueryMeansMatches(c, workspace, f, clauses, id);
    }
    r := Ok(rows);
  }

  /** What each filter contributes. */
  ghost predicate Contributes(f: Filters, workspace: string, clause: Clause) {
    match clause
    case WorkspaceIs(w) => w == workspace
    case StatusIs(s) => (f.status.Some? && ParseStatus(f.status.value) == Some(s))
      || (f.readyOnly && f.status.None? && s == Open)
    case EpicIs(e) => f.epicId == Some(e)
    case PriorityIs(p) => f.priority == Some(p)
    case OwnerIs(o) => Owner(f.owner) == Some(o)
    case HasLabel(l) => f.wanted.Some? && l == Label(f.wanted.value) && l != []
    case Resolved => f.readyOnly
  }

  method BuildQuery(workspace: string, f: Filters) returns (query: seq<Clause>)
    requires f.status.Some? ==> ParseStatus(f.status.value).Some?
    ensures forall clause :: clause in query <==> Contributes(f, workspace, clause)
  {
    var labels := NormalizeTaskLabels(if f.wanted.Some? then [f.wanted.value] else []);
    SingleLabel(f.wanted, labels);
    query := [WorkspaceIs(workspace)];
    if f.status.Some? { query := query + [StatusIs(ParseStatus(f.status.value).value)]; }
    assert query == [WorkspaceIs(workspace)] + StatusPart(f);
    if f.epicId.Some? { query := query + [EpicIs(f.epicId.value)]; }
    assert query == [WorkspaceIs(workspace)] + StatusPart(f) + EpicPart(f);
    if f.priority.Some? { query := query + [PriorityIs(f.priority.value)]; }
    assert query == [WorkspaceIs(workspace)] + StatusPart(f) + EpicPart(f) + PriorityPart(f);
    if Owner(f.owner).Some? { query := query + [OwnerIs(Owner(f.owner).value)]; }
    assert query == [WorkspaceIs(workspace)] + StatusPart(f) + EpicPart(f) + PriorityPart(f) + OwnerPart(f);
    if labels != [] { query := query + [HasLabel(labels[0])]; }
    assert query == Selected(workspace, f);
    query := query + ReadyClauses(f);
    forall clause ensures clause in query <==> Contributes(f, workspace, clause) {
      SelectedContribute(workspace, f, clause);
    }
  }

  function ReadyClauses(f: Filters): seq<Clause> {
    if !f.readyOnly then [] else if f.status.None? then [StatusIs(Open), Resolved] else [Resolved]
  }

  ghost function StatusPart(f: Filters): seq<Clause>
    requires f.status.Some? ==> ParseStatus(f.status.value).Some?
  {
    if f.status.Some? then [StatusIs(ParseStatus(f.status.value).value)] else []
  }

  ghost function EpicPart(f: Filters): seq<Clause> {
    if f.epicId.Some? then [EpicIs(f.epicId.value)] else []
  }

  ghost function PriorityPart(f: Filters): seq<Clause> {
    if f.priority.Some? then [PriorityIs(f.priority.value)] else []
  }

  ghost function OwnerPart(f: Filters): seq<Clause> {
    if Owner(f.owner).Some? then [OwnerIs(Owner(f.owner).value)] else []
  }

  ghost function LabelPart(f: Filters): seq<Clause> {
    if f.wanted.Some? && Label(f.wanted.value) != [] then [HasLabel(Label(f.wanted.value))] else []
  }

  /** The clauses of the plain filters. */
  ghost function Selected(workspace: string, f: Filters): seq<Clause>
    requires f.status.Some? ==> ParseStatus(f.status.value).Some?
  {
    [WorkspaceIs(workspace)] + StatusPart(f) + EpicPart(f) + PriorityPart(f) + OwnerPart(f) + LabelPart(f)
  }

  lemma SelectedContribute(workspace: string, f: Filters, clause: Clause)
    requires f.status.Some? ==> ParseStatus(f.status.value).Some?
    ensures clause in Selected(workspace, f) + ReadyClauses(f) <==> Contributes(f, workspace, clause)
  {
    assert clause in Selected(workspace, f) + ReadyClauses(f) <==>
      || clause == WorkspaceIs(workspace)
      || clause in StatusPart(f)
      || clause in EpicPart(f)
      || clause in PriorityPart(f)
      || clause in OwnerPart(f)
      || clause in LabelPart(f)
      || clause in ReadyClauses(f);
  }

  lemma SingleLabel(wanted: Option<string>, labels: seq<string>)
    requires IsNormalList(Label, if wanted.Some? then [wanted.value] else [], labels)
    ensures labels == if wanted.Some? && Label(wanted.value) != [] then [Label(wanted.value)] else []
  {
    var values := if wanted.Some? then [wanted.value] else [];
    var expected := if wanted.Some? && Label(wanted.value) != [] then [Label(wanted.value)] else [];
    if wanted.Some? { assert wanted.value in values; }
    assert IsNormalList(Label, values, expected);
    NormalListIsUnique(Label, values, labels, expected);
  }

  lemma QueryMeansMatches(c: Catalog, workspace: string, f: Filters, clauses: seq<Clause>, id: Id)
    requires forall clause :: clause in clauses <==> Contributes(f, workspace, clause)
    requires f.status.Some? ==> ParseStatus(f.status.value).Some?
    requires !(f.readyOnly && (f.status == Some("claimed") || f.status == Some("completed")))
    ensures HoldsAll(c, clauses, id) <==> Matches(c, workspace, f, id)
  {
    if HoldsAll(c, clauses, id) {
      assert Holds(c, WorkspaceIs(workspace), id);
      if f.status.Some? { assert Holds(c, StatusIs(ParseStatus(f.status.value).value), id); }
      if f.epicId.Some? { assert Holds(c, EpicIs(f.epicId.value), id); }
      if f.priority.Some? { assert Holds(c, PriorityIs(f.priority.value), id); }
      if Owner(f.owner).Some? { assert Holds(c, OwnerIs(Owner(f.owner).value), id); }
      if f.wanted.Some? && Label(f.wanted.value) != [] { assert Holds(c, HasLabel(Label(f.wanted.value)), id); }
      if f.readyOnly {
        assert Holds(c, Resolved, id);
        if f.status.None? { assert Holds(c, StatusIs(Open), id); }
      }
    }
    if Matches(c, workspace, f, id) {
      forall clause | clause in clauses ensures Holds(c, clause, id) {
        assert Contributes(f, workspace, clause);
      }
    }
  }

  /** ORDER BY and LIMIT: repeatedly some row that no remaining row must precede. */
  method RunQuery(c: Catalog, clauses: seq<Clause>, ranked: bool, limit: Option<nat>) returns (rows: seq<Id>)
    ensures InListingOrder(c, ranked, rows)
    ensures forall id | id in rows :: HoldsAll(c, clauses, id)
    ensures limit.Some? ==> |rows| <= limit.value
    ensures forall id | HoldsAll(c, clauses, id) && id !in rows ::
              && limit == Some(|rows|)
              && forall listed | listed in rows :: !Before(c, ranked, c.tasks[id], c.tasks[listed])
  {
    rows := [];
    var remaining := set id | id in c.tasks && HoldsAll(c, clauses, id);
    while remaining != {} && (limit.None? || |rows| < limit.value)
      invariant forall id :: HoldsAll(c, clauses, id) <==> id in rows || id in remaining
      invariant forall id | id in rows :: id !in remaining
      invariant InListingOrder(c, ranked, rows)
      invariant limit.Some? ==> |rows| <= limit.value
      invariant forall id, listed | id in remaining && listed in rows ::
                !Before(c, ranked, c.tasks[id], c.tasks[listed])
      decreases remaining
    {
      FirstExists(c, ranked, remaining);
      var first :| first in remaining && forall id | id in remaining :: !Before(c, ranked, c.tasks[id], c.tasks[first]);
      rows := rows + [first];
      remaining := remaining - {first};
    }
  }

  lemma FirstExists(c: Catalog, ranked: bool, ids: set<Id>)
    requires ids != {} && forall id | id in ids :: id in c.tasks
    ensures exists first :: first in ids && forall id | id in ids :: !Before(c, ranked, c.tasks[id], c.tasks[first])
  {
    var lt := (a: Id, b: Id) => a in c.tasks && b in c.tasks && Before(c, ranked, c.tasks[a], c.tasks[b]);
    MinimalExists(lt, ids);
    var first :| first in ids && forall id | id in ids :: !lt(id, first);
    assert forall id | id in ids :: !Before(c, ranked, c.tasks[id], c.tasks[first]) by {
      forall id | id in ids ensures !Before(c, ranked, c.tasks[id], c.tasks[first]) { assert !lt(id, first); }
    }
  }
}
