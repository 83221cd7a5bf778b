/** The task dependency graph: its writes, the cycle check, and the recursive depth queries. */
module Dependencies {
  import opened Common
  import opened Graphs
  import opened Normalise
  import opened Sorting
  import opened Tables

  type Edge = (Id, Id)

  /** The abstract state: task rows and `task -> depends_on` edges. */
  datatype Dag = Dag(tasks: map<Id, TaskRow>, edges: set<Edge>)

  datatype DependencyRow = DependencyRow(workspace: string, actor: string, eventId: Id, createdAt: Time)

  datatype Event =
    | TaskOffered(eventId: Id, workspace: string, actor: string, createdAt: Time)
    | TaskDependencyDeclared(eventId: Id, workspace: string, actor: string, taskId: Id, dependsOn: Id, createdAt: Time)

  /** What every run keeps: edges join existing tasks of one workspace and never close a cycle. */
  ghost predicate Sound(d: Dag) {
    && Acyclic(d.edges)
    && (forall e | e in d.edges ::
          e.0 in d.tasks && e.1 in d.tasks && d.tasks[e.0].workspace == d.tasks[e.1].workspace)
  }

  // ---------------------------------------------------------------------------------------------
  // The cycle check
  // ---------------------------------------------------------------------------------------------

  /** `dependency_would_create_cycle`: is `taskId` among the rows reachable from `dependsOn`? */
  function WouldCreateCycle(edges: set<Edge>, taskId: Id, dependsOn: Id): bool {
    var base := Successors(edges, {dependsOn});
    taskId in RecursiveUnion(edges, base, base)
  }

  /** The recursive query answers reachability, on every finite edge set, cyclic or not. */
  lemma CycleCheckIsReachability(edges: set<Edge>, taskId: Id, dependsOn: Id)
    ensures WouldCreateCycle(edges, taskId, dependsOn) <==> ReachesStrictly(edges, dependsOn, taskId)
  {
    var base := Successors(edges, {dependsOn});
    forall v | v in base ensures ReachesStrictly(edges, dependsOn, v) {
      StepWalk(edges, dependsOn, v);
    }
    assert base - base == {};
    RecursiveUnionIsReachability(edges, dependsOn, base, base);
  }

  /** For two distinct tasks of an acyclic graph the check refuses exactly the edges that close a cycle. */
  lemma CycleCheckIsExact(edges: set<Edge>, taskId: Id, dependsOn: Id)
    requires Acyclic(edges) && taskId != dependsOn
    ensures WouldCreateCycle(edges, taskId, dependsOn) <==> !Acyclic(edges + {(taskId, dependsOn)})
  {
    CycleCheckIsReachability(edges, taskId, dependsOn);
    StrictOrSame(edges, dependsOn, taskId);
    AcyclicWithNewEdge(edges, taskId, dependsOn);
  }

  // ---------------------------------------------------------------------------------------------
  // Writes
  // ---------------------------------------------------------------------------------------------

  /** What `append_task_dependency` promises, in terms of reachability rather than of its query. */
  ghost function AppendOutcome(d: Dag, workspace: string, taskId: Id, dependsOn: Id, now: Time): Result<Dag, Error> {
    if taskId == dependsOn then Err(BadRequest)
    else if !InWorkspace(d.tasks, taskId, workspace) || !InWorkspace(d.tasks, dependsOn, workspace) then Err(NotFound)
    else if (taskId, dependsOn) in d.edges || Reaches(d.edges, dependsOn, taskId) then Err(Conflict)
    else Ok(Dag(d.tasks[taskId := d.tasks[taskId].(updatedAt := now)], d.edges + {(taskId, dependsOn)}))
  }

  /** An offer commits exactly when every listed dependency is a task of the same workspace. */
  ghost predicate OfferAccepted(d: Dag, workspace: string, dependsOn: seq<Id>) {
    forall dep | dep in dependsOn :: InWorkspace(d.tasks, dep, workspace)
  }

  ghost function Offered(d: Dag, taskId: Id, row: TaskRow, dependsOn: seq<Id>): Dag {
    Dag(d.tasks[taskId := row], d.edges + set dep | dep in dependsOn :: (taskId, dep))
  }

  /** The offer's events: its own, then one declaration for each listed dependency, all by its author at its time. */
  ghost predicate LogsOffer(q: Request, now: Time, before: seq<Event>, after: seq<Event>, taskId: Id,
      unique: seq<Id>) {
    && |after| == |before| + 1 + |unique|
    && before <= after
    && after[|before|] == TaskOffered(after[|before|].eventId, q.workspace, q.author, now)
    && forall k | |before| < k < |after| :: after[k] == TaskDependencyDeclared(
         after[k].eventId, q.workspace, q.author, taskId, unique[k - |before| - 1], now)
  }

  lemma LogsOneMore(q: Request, now: Time, before: seq<Event>, after: seq<Event>, taskId: Id, unique: seq<Id>, e: Event)
    requires LogsOffer(q, now, before, after, taskId, unique)
    requires e.TaskDependencyDeclared?
    requires e == TaskDependencyDeclared(e.eventId, q.workspace, q.author, taskId, e.dependsOn, now)
    ensures LogsOffer(q, now, before, after + [e], taskId, unique + [e.dependsOn])
  {
  }

  /** What an offer asks for. */
  datatype Request = Request(
    workspace: string,
    author: string,
    title: string,
    details: string,
    epicId: Option<Id>,
    priority: string,
    owner: Option<string>,
    labels: seq<string>,
    dependsOn: seq<Id>)

  /** The row of a new task: open, with its labels and owner in normal form. */
  function NewTask(q: Request, now: Time): TaskRow {
    TaskRow(q.workspace, q.title, q.details, Open, q.epicId, q.priority,
            Owner(q.owner), NormalLabels(q.labels), now, now)
  }

  /** What the row of an offered task holds, column by column. */
  ghost predicate IsOffered(q: Request, now: Time, row: TaskRow) {
    && row.workspace == q.workspace && row.title == q.title && row.details == q.details
    && row.status == Open && row.epicId == q.epicId && row.priority == q.priority
    && row.createdAt == now && row.updatedAt == now
    && IsNormalList(Label, q.labels, row.labels)
    && (q.owner.None? ==> row.owner == None)
    && (q.owner.Some? ==> NamesOwner(q.owner.value, row.owner))
  }

  lemma NewTaskIsOffered(q: Request, now: Time)
    ensures IsOffered(q, now, NewTask(q, now))
  {
    NormalLabelsAreTheNormalList(q.labels, NormalLabels(q.labels));
    if q.owner.Some? { OwnerIsTheNamedOne(q.owner.value, Owner(q.owner)); }
  }

  /** `unique_task_ids`: the distinct ids, in the order of their first occurrence. */
  method UniqueTaskIds(ids: seq<Id>) returns (unique: seq<Id>)
    ensures Distinct(unique)
    ensures forall id :: id in unique <==> id in ids
    ensures forall k | 0 <= k < |unique| ::
              exists i :: 0 <= i < |ids| && ids[i] == unique[k] && forall id | id in ids[..i] :: id in unique[..k]
  {
    unique := [];
    for n := 0 to |ids|
      invariant Distinct(unique)
      invariant forall id :: id in unique <==> id in ids[..n]
      invariant forall k | 0 <= k < |unique| ::
        exists i :: 0 <= i < n && ids[i] == unique[k] && forall id | id in ids[..i] :: id in unique[..k]
    {
      ghost var before := unique;
      if ids[n] !in unique {
        unique := unique + [ids[n]];
        assert unique[..|before|] == before;
        assert forall k | 0 <= k < |before| :: unique[..k] == before[..k];
      }
      assert ids[..n + 1] == ids[..n] + [ids[n]];
    }
    assert ids[..|ids|] == ids;
  }

  class DependencyStore {
    var tasks: map<Id, TaskRow>
    var dependencies: map<Edge, DependencyRow>
    var events: seq<Event>
    /** The workspace of each epic, and the priorities that each workspace supports. */
    var epics: map<Id, string>
    var priorities: set<(string, string)>
    /** The supply of fresh UUIDs. */
    var nextId: Id

    ghost predicate Valid()
      reads this
    {
      Sound(Contents()) && forall id | id in tasks :: id < nextId
    }

    ghost function Contents(): Dag
      reads this
    {
      Dag(tasks, dependencies.Keys)
    }

    predicate SupportsOffer(q: Request)
      reads this
    {
      && (q.workspace, q.priority) in priorities
      && (q.epicId.Some? ==> q.epicId.value in epics && epics[q.epicId.value] == q.workspace)
    }

    constructor (epics: map<Id, string>, priorities: set<(string, string)>)
      ensures Valid() && Contents() == Dag(map[], {}) && events == []
      ensures this.epics == epics && this.priorities == priorities
    {
      this.epics, this.priorities := epics, priorities;
      tasks, dependencies, events, nextId := map[], map[], [], 0;
      new;
      forall a ensures !ReachesStrictly(dependencies.Keys, a, a) { NoWalkWithoutEdges(dependencies.Keys, a); }
    }

    method AppendTaskDependency(workspace: string, actor: string, taskId: Id, dependsOn: Id, createdAt: Time)
      returns (r: Result<Id, Error>)
      requires Acyclic(Contents().edges)
      modifies this`tasks, this`dependencies, this`events, this`nextId
      ensures match AppendOutcome(old(Contents()), workspace, taskId, dependsOn, createdAt)
              case Err(e) => r == Err(e) && unchanged(this)
              case Ok(next) =>
                && Contents() == next
                && r == Ok(old(nextId)) && nextId == old(nextId) + 1
                && dependencies == old(dependencies)[(taskId, dependsOn) :=
                   DependencyRow(workspace, actor, old(nextId), createdAt)]
                && events == old(events) + [TaskDependencyDeclared(old(nextId), workspace, actor, taskId, dependsOn,
                   createdAt)]
    {
      if taskId == dependsOn { return Err(BadRequest); }
      if !InWorkspace(tasks, taskId, workspace) { return Err(NotFound); }
      if !InWorkspace(tasks, dependsOn, workspace) { return Err(NotFound); }
      if (taskId, dependsOn) in dependencies { return Err(Conflict); }
      CycleCheckIsReachability(dependencies.Keys, taskId, dependsOn);
      StrictOrSame(dependencies.Keys, dependsOn, taskId);
      if WouldCreateCycle(dependencies.Keys, taskId, dependsOn) { return Err(Conflict); }

      var eventId := nextId;
      nextId := nextId + 1;
      events := events + [TaskDependencyDeclared(eventId, workspace, actor, taskId, dependsOn, createdAt)];
      dependencies := dependencies[(taskId, dependsOn) := DependencyRow(workspace, actor, eventId, createdAt)];
      tasks := tasks[taskId := tasks[taskId].(updatedAt := createdAt)];
      r := Ok(eventId);
    }

    /** `add_task_dependency`: one edge in its own transaction. */
    method AddTaskDependency(workspace: string, actor: string, taskId: Id, dependsOn: Id, createdAt: Time)
      returns (r: Result<Id, Error>)
      requires Valid()
      modifies this
      ensures Valid()
      ensures match AppendOutcome(old(Contents()), workspace, taskId, dependsOn, createdAt)
              case Err(e) => r == Err(e) && unchanged(this)
              case Ok(next) => r.Ok? && Contents() == next && |events| == old(|events|) + 1
    {
      AppendKeepsSound(Contents(), workspace, taskId, dependsOn, createdAt);
      r := AppendTaskDependency(workspace, actor, taskId, dependsOn, createdAt);
    }

    /** `persist_offered_task`: the task row, then its edges one by one; the first refusal stops it. */
    method PersistOfferedTask(q: Request, taskId: Id, createdAt: Time) returns (r: Result<(), Error>)
      requires Sound(Contents()) && taskId !in tasks && taskId < nextId
      requires events != [] && events[|events| - 1] == TaskOffered(events[|events| - 1].eventId, q.workspace, q.author,
               createdAt)
      modifies this`tasks, this`dependencies, this`events, this`nextId
      ensures nextId >= old(nextId)
      ensures r.Ok? <==> OfferAccepted(old(Contents()), q.workspace, q.dependsOn)
      ensures r.Ok? ==> Contents() == Offered(old(Contents()), taskId, NewTask(q, createdAt), q.dependsOn)
      ensures r.Ok? ==> OfferIsLogged(q, createdAt, old(events)[..|old(events)| - 1], events, taskId)
      ensures r.Ok? ==> taskId in tasks && IsOffered(q, createdAt, tasks[taskId])
      ensures r.Err? ==> r.error != Conflict
    {
      ghost var before, logBefore := Contents(), events[..|events| - 1];
      var row := NewTask(q, createdAt);
      tasks := tasks[taskId := row];
      var unique := UniqueTaskIds(q.dependsOn);
      OfferKeepsSound(before, taskId, row, []);
      for n := 0 to |unique|
        invariant OfferAccepted(before, q.workspace, unique[..n])
        invariant Contents() == Offered(before, taskId, row, unique[..n])
        invariant nextId >= old(nextId)
        invariant LogsOffer(q, createdAt, logBefore, events, taskId, unique[..n])
      {
        OfferStep(before, taskId, row, unique[..n], unique[n], createdAt);
        assert unique[n] in q.dependsOn;
        ghost var logged := events;
        var appended := AppendTaskDependency(q.workspace, q.author, taskId, unique[n], createdAt);
        if appended.Err? { return Err(appended.error); }
        assert unique[..n + 1] == unique[..n] + [unique[n]];
        LogsOneMore(q, createdAt, logBefore, logged, taskId, unique[..n], events[|logged|]);
      }
      assert unique[..|unique|] == unique;
      assert Offered(before, taskId, row, unique) == Offered(before, taskId, row, q.dependsOn);
      NewTaskIsOffered(q, createdAt);
      r := Ok(());
    }

    /**
     * `offer_task`: the priority and the epic are looked up first; then the event, the task row and all its
     * edges are written in one transaction and rolled back together.
     */
    method OfferTask(q: Request, createdAt: Time) returns (r: Result<Id, Error>)
      requires Valid()
      modifies this`tasks, this`dependencies, this`events, this`nextId
      ensures Valid()
      ensures r.Ok? <==> SupportsOffer(q) && OfferAccepted(old(Contents()), q.workspace, q.dependsOn)
      ensures (q.workspace, q.priority) !in priorities ==> r == Err(BadRequest)
      ensures r.Ok? ==>
                && r.value !in old(tasks)
                && Contents() == Offered(old(Contents()), r.value, NewTask(q, createdAt), q.dependsOn)
                && OfferIsLogged(q, createdAt, old(events), events, r.value)
                && r.value in tasks && IsOffered(q, createdAt, tasks[r.value])
      ensures r.Err? ==>
                && r.error != Conflict
                && tasks == old(tasks) && dependencies == old(dependencies)
                && events == old(events) && nextId == old(nextId)
    {
      if (q.workspace, q.priority) !in priorities { return Err(BadRequest); }
      if q.epicId.Some? {
        if q.epicId.value !in epics || epics[q.epicId.value] != q.workspace { return Err(NotFound); }
      }
      var savedTasks, savedDependencies, savedEvents, savedNext := tasks, dependencies, events, nextId;
      var taskId := nextId;
      events := events + [TaskOffered(nextId + 1, q.workspace, q.author, createdAt)];
      nextId := nextId + 2;
      assert events[..|events| - 1] == old(events);
      var persisted := PersistOfferedTask(q, taskId, createdAt);
      if persisted.Err? {
        tasks, dependencies, events, nextId := savedTasks, savedDependencies, savedEvents, savedNext;
        return Err(persisted.error);
      }
      OfferKeepsSound(old(Contents()), taskId, NewTask(q, createdAt), q.dependsOn);
      r := Ok(taskId);
    }
  }

  /** The offer's own event, then one declaration for each distinct dependency. */
  ghost predicate OfferIsLogged(q: Request, now: Time, before: seq<Event>, after: seq<Event>, taskId: Id) {
    exists unique: seq<Id> ::
      && Distinct(unique) && (forall id :: id in unique <==> id in q.dependsOn)
      && LogsOffer(q, now, before, after, taskId, unique)
  }

  lemma NoWalkWithoutEdges(edges: set<Edge>, a: Id)
    requires edges == {}
    ensures !ReachesStrictly(edges, a, a)
  {
  }

  lemma AppendKeepsSound(d: Dag, workspace: string, taskId: Id, dependsOn: Id, now: Time)
    requires Sound(d)
    ensures var r := AppendOutcome(d, workspace, taskId, dependsOn, now); r.Ok? ==> Sound(r.value)
  {
    AcyclicWithNewEdge(d.edges, taskId, dependsOn);
  }

  /** No edge enters a task that was just inserted, so no dependency of it can reach it. */
  lemma NothingReachesOffered(d: Dag, taskId: Id, row: TaskRow, dependsOn: seq<Id>, dep: Id)
    requires Sound(d) && taskId !in d.tasks && taskId !in dependsOn && dep != taskId
    ensures !Reaches(Offered(d, taskId, row, dependsOn).edges, dep, taskId)
  {
    var edges := Offered(d, taskId, row, dependsOn).edges;
    if Reaches(edges, dep, taskId) {
      var n: nat :| Walk(edges, dep, taskId, n);
      LastEdge(edges, dep, taskId, n);
    }
  }

  lemma {:induction false} LastEdge(edges: set<Edge>, a: Id, b: Id, n: nat)
    requires Walk(edges, a, b, n) && a != b
    ensures exists e :: e in edges && e.1 == b
    decreases n
  {
    var c :| (a, c) in edges && Walk(edges, c, b, n - 1);
    if c == b { assert (a, b) in edges && (a, b).1 == b; } else { LastEdge(edges, c, b, n - 1); }
  }

  /** Inside an offer, appending a dependency not yet listed fails only for want of the task, never with a conflict. */
  lemma OfferStep(d: Dag, taskId: Id, row: TaskRow, listed: seq<Id>, dep: Id, now: Time)
    requires Sound(d) && taskId !in d.tasks && OfferAccepted(d, row.workspace, listed)
    requires dep !in listed && row.updatedAt == now
    ensures Acyclic(Offered(d, taskId, row, listed).edges)
    ensures AppendOutcome(Offered(d, taskId, row, listed), row.workspace, taskId, dep, now)
         == if InWorkspace(d.tasks, dep, row.workspace) then Ok(Offered(d, taskId, row, listed + [dep]))
            else Err(if dep == taskId then BadRequest else NotFound)
  {
    OfferKeepsSound(d, taskId, row, listed);
    var current := Offered(d, taskId, row, listed);
    if InWorkspace(d.tasks, dep, row.workspace) {
      NothingReachesOffered(d, taskId, row, listed, dep);
      assert (taskId, dep) !in d.edges;
      assert current.edges + {(taskId, dep)} == Offered(d, taskId, row, listed + [dep]).edges;
      assert row.(updatedAt := now) == row && current.tasks[taskId := row] == current.tasks;
      assert (taskId, dep) !in current.edges && dep in current.tasks;
    }
  }

  lemma {:induction false} OfferKeepsSound(d: Dag, taskId: Id, row: TaskRow, dependsOn: seq<Id>)
    requires Sound(d) && taskId !in d.tasks
    requires OfferAccepted(d, row.workspace, dependsOn)
    ensures Sound(Offered(d, taskId, row, dependsOn))
    decreases |dependsOn|
  {
    var next := Offered(d, taskId, row, dependsOn);
    if dependsOn == [] {
      assert next.edges == d.edges;
    } else {
      var rest, last := dependsOn[..|dependsOn| - 1], dependsOn[|dependsOn| - 1];
      assert dependsOn == rest + [last];
      OfferKeepsSound(d, taskId, row, rest);
      assert next.edges == Offered(d, taskId, row, rest).edges + {(taskId, last)};
      NothingReachesOffered(d, taskId, row, rest, last);
      AcyclicWithNewEdge(Offered(d, taskId, row, rest).edges, taskId, last);
    }
  }

  // ---------------------------------------------------------------------------------------------
  // Whole runs
  // ---------------------------------------------------------------------------------------------

  datatype Command =
    | Offer(taskId: Id, row: TaskRow, dependsOn: seq<Id>)
    | Depend(workspace: string, taskId: Id, on: Id, now: Time)
    | Rewrite(taskId: Id, row: TaskRow)  // any other handler that updates a task row in place

  ghost function Apply(d: Dag, c: Command): Dag {
    match c
    case Offer(id, row, deps) =>
      if id !in d.tasks && OfferAccepted(d, row.workspace, deps) then Offered(d, id, row, deps) else d
    case Depend(ws, id, dep, now) =>
      var r := AppendOutcome(d, ws, id, dep, now);
      if r.Ok? then r.value else d
    case Rewrite(id, row) =>
      if InWorkspace(d.tasks, id, row.workspace) then d.(tasks := d.tasks[id := row]) else d
  }

  ghost function Run(d: Dag, commands: seq<Command>): Dag
    decreases |commands|
  {
    if commands == [] then d else Run(Apply(d, commands[0]), commands[1..])
  }

  /** Every run of offers, added dependencies and row updates keeps the graph acyclic and in one workspace. */
  lemma {:induction false} RunsStaySound(d: Dag, commands: seq<Command>)
    requires Sound(d)
    ensures Sound(Run(d, commands))
    decreases |commands|
  {
    if commands != [] {
      match commands[0] {
        case Offer(id, row, deps) =>
          if id !in d.tasks && OfferAccepted(d, row.workspace, deps) { OfferKeepsSound(d, id, row, deps); }
        case Depend(ws, id, dep, now) => AppendKeepsSound(d, ws, id, dep, now);
        case Rewrite(_, _) =>
      }
      RunsStaySound(Apply(d, commands[0]), commands[1..]);
    }
  }

  // ---------------------------------------------------------------------------------------------
  // Recursive queries that carry a depth
  // ---------------------------------------------------------------------------------------------

  /** The rows `(task_id, depth)` that the rounds from `depth` on produce; each round is one level. */
  function ChainRows(edges: set<Edge>, ghost start: Id, depth: nat, working: set<Id>): set<(Id, nat)>
    requires Acyclic(edges)
    requires forall v | v in working :: Walk(edges, start, v, depth)
    decreases |Targets(edges)| + 1 - depth
  {
    if working == {} then {}
    else
      LevelStep(edges, start, depth, working);
      (set v | v in working :: (v, depth)) + ChainRows(edges, start, depth + 1, Successors(edges, working))
  }

  lemma LevelStep(edges: set<Edge>, start: Id, depth: nat, working: set<Id>)
    requires Acyclic(edges) && working != {}
    requires forall v | v in working :: Walk(edges, start, v, depth)
    ensures depth <= |Targets(edges)|
    ensures forall v | v in Successors(edges, working) :: Walk(edges, start, v, depth + 1)
  {
    var w :| w in working;
    WalksAreShort(edges, start, w, depth);
    forall v | v in Successors(edges, working) ensures Walk(edges, start, v, depth + 1) {
      var e :| e in edges && e.0 in working && e.1 == v;
      StepWalk(edges, e.0, v);
      WalkAppend(edges, start, e.0, v, depth, 1);
    }
  }

  /** The rows are exactly the walks: `(v, n)` is produced iff some walk of `n` edges ends in `v`. */
  lemma {:induction false} ChainRowsAreWalks(edges: set<Edge>, start: Id, depth: nat, working: set<Id>)
    requires Acyclic(edges)
    requires forall v: Id :: v in working <==> Walk(edges, start, v, depth)
    ensures forall v: Id, n: nat ::
              (v, n) in ChainRows(edges, start, depth, working) <==> n >= depth && Walk(edges, start, v, n)
    decreases |Targets(edges)| + 1 - depth
  {
    if working == {} {
      forall v: Id, n: nat | n >= depth ensures !Walk(edges, start, v, n) {
        if Walk(edges, start, v, n) {
          var m := WalkPrefix(edges, start, v, n, depth);
        }
      }
    } else {
      LevelStep(edges, start, depth, working);
      var next := Successors(edges, working);
      forall v: Id | Walk(edges, start, v, depth + 1) ensures v in next {
        var m := WalkPrefix(edges, start, v, depth + 1, depth);
        assert Walk(edges, m, v, 1);
        var c :| (m, c) in edges && Walk(edges, c, v, 0);
        assert (m, v) in edges && (m, v).0 in working && (m, v).1 == v;
      }
      ChainRowsAreWalks(edges, start, depth + 1, next);
    }
  }

  lemma {:induction false} WalkPrefix(edges: set<Edge>, a: Id, b: Id, n: nat, m: nat) returns (mid: Id)
    requires Walk(edges, a, b, n) && m <= n
    ensures Walk(edges, a, mid, m) && Walk(edges, mid, b, n - m)
    decreases m
  {
    if m == 0 {
      mid := a;
    } else {
      var c :| (a, c) in edges && Walk(edges, c, b, n - 1);
      mid := WalkPrefix(edges, c, b, n - 1, m - 1);
    }
  }

  /** `MIN(depth) ... GROUP BY task_id` over a finite set of rows. */
  ghost function MinDepth(rows: set<(Id, nat)>, id: Id): (d: nat)
    requires exists d: nat :: (id, d) in rows
    ensures (id, d) in rows && forall n: nat | (id, n) in rows :: d <= n
  {
    var d: nat :| (id, d) in rows;
    LeastDepth(rows, id, d);
    var least: nat :| (id, least) in rows && forall n: nat | (id, n) in rows :: least <= n;
    least
  }

  lemma {:induction false} LeastDepth(rows: set<(Id, nat)>, id: Id, d: nat)
    requires (id, d) in rows
    ensures exists least: nat :: (id, least) in rows && forall n: nat | (id, n) in rows :: least <= n
    decreases d
  {
    if n: nat :| (id, n) in rows && n < d {
      LeastDepth(rows, id, n);
    } else {
      assert forall n: nat | (id, n) in rows :: d <= n;
    }
  }

  /** `fetch_dependency_chain_rows`: transitive dependencies (or dependents) with their least depth. */
  ghost function Chain(d: Dag, taskId: Id, reverse: bool): map<Id, nat>
    requires Sound(d)
  {
    var edges := if reverse then Reverse(d.edges) else d.edges;
    FirstLevel(d, taskId, reverse);
    var rows := ChainRows(edges, taskId, 1, Successors(edges, {taskId}));
    map id | id in (set row | row in rows :: row.0) && id in d.tasks :: assert (exists n: nat :: (id, n) in rows) by {
        var row :| row in rows && row.0 == id; assert (id, row.1) in rows; } MinDepth(rows, id)
  }

  lemma FirstLevel(d: Dag, taskId: Id, reverse: bool)
    requires Sound(d)
    ensures var edges := if reverse then Reverse(d.edges) else d.edges;
            && Acyclic(edges)
            && (forall v: Id :: v in Successors(edges, {taskId}) <==> Walk(edges, taskId, v, 1))
            && (forall v | v in Targets(edges) :: v in d.tasks)
  {
    if reverse { ReverseAcyclic(d.edges); }
    var edges := if reverse then Reverse(d.edges) else d.edges;
    forall v: Id ensures v in Successors(edges, {taskId}) <==> Walk(edges, taskId, v, 1) {
      if v in Successors(edges, {taskId}) { StepWalk(edges, taskId, v); }
      if Walk(edges, taskId, v, 1) {
        var c :| (taskId, c) in edges && Walk(edges, c, v, 0);
        assert (taskId, v) in edges && (taskId, v).0 in {taskId} && (taskId, v).1 == v;
      }
    }
  }

  /** The shortest non-empty walk from `a` to `b` has `n` edges. */
  ghost predicate ShortestWalk(edges: set<Edge>, a: Id, b: Id, n: nat) {
    n >= 1 && Walk(edges, a, b, n) && forall m: nat | 1 <= m && Walk(edges, a, b, m) :: n <= m
  }

  /** The chain lists exactly the tasks reachable by a walk, each once, with the length of the shortest walk. */
  lemma ChainIsShortestWalk(d: Dag, taskId: Id, reverse: bool, id: Id, n: nat)
    requires Sound(d)
    ensures var edges := if reverse then Reverse(d.edges) else d.edges;
            var chain := Chain(d, taskId, reverse);
            && (id in chain <==> ReachesStrictly(edges, taskId, id))
            && (id in chain && chain[id] == n <==> ShortestWalk(edges, taskId, id, n))
  {
    var edges := if reverse then Reverse(d.edges) else d.edges;
    FirstLevel(d, taskId, reverse);
    var first := Successors(edges, {taskId});
    ChainRowsAreWalks(edges, taskId, 1, first);
    var rows := ChainRows(edges, taskId, 1, first);
    var chain := Chain(d, taskId, reverse);
    if ReachesStrictly(edges, taskId, id) {
      var m: nat :| m >= 1 && Walk(edges, taskId, id, m);
      assert (id, m) in rows;
      var seen := WalkVisits(edges, taskId, id, m);
      LastTarget(edges, taskId, id, m);
      assert id in chain;
    }
    if id in chain {
      assert (id, chain[id]) in rows;
      assert Walk(edges, taskId, id, chain[id]);
      forall m: nat | 1 <= m && Walk(edges, taskId, id, m) ensures chain[id] <= m {
        assert (id, m) in rows;
      }
    }
  }

  lemma {:induction false} LastTarget(edges: set<Edge>, a: Id, b: Id, n: nat)
    requires n >= 1 && Walk(edges, a, b, n)
    ensures b in Targets(edges)
    decreases n
  {
    var c :| (a, c) in edges && Walk(edges, c, b, n - 1);
    if n == 1 { assert (a, c).1 in Targets(edges); } else { LastTarget(edges, c, b, n - 1); }
  }

  /** The recursion stops after at most as many levels as there are tasks. */
  lemma ChainRoundsAreBounded(d: Dag, taskId: Id, reverse: bool)
    requires Sound(d)
    ensures forall id | id in Chain(d, taskId, reverse) :: Chain(d, taskId, reverse)[id] <= |d.tasks|
    ensures var edges := if reverse then Reverse(d.edges) else d.edges;
            forall v: Id, n: nat | Walk(edges, taskId, v, n) :: n <= |d.tasks|
  {
    var edges := if reverse then Reverse(d.edges) else d.edges;
    FirstLevel(d, taskId, reverse);
    forall v: Id, n: nat | Walk(edges, taskId, v, n) ensures n <= |d.tasks| {
      WalksAreShort(edges, taskId, v, n);
      SubsetSize(Targets(edges), d.tasks.Keys);
    }
    forall id | id in Chain(d, taskId, reverse) ensures Chain(d, taskId, reverse)[id] <= |d.tasks| {
      ChainIsShortestWalk(d, taskId, reverse, id, Chain(d, taskId, reverse)[id]);
    }
  }

  /** `b` is in `a`'s dependency chain at depth `n` iff `a` is in `b`'s dependent chain at depth `n`. */
  lemma ChainsMirrorEachOther(d: Dag, a: Id, b: Id, n: nat)
    requires Sound(d)
    ensures (b in Chain(d, a, false) && Chain(d, a, false)[b] == n)
       <==> (a in Chain(d, b, true) && Chain(d, b, true)[a] == n)
  {
    ChainIsShortestWalk(d, a, false, b, n);
    ChainIsShortestWalk(d, b, true, a, n);
    ShortestWalkReversed(d.edges, a, b, n);
  }

  lemma ShortestWalkReversed(edges: set<Edge>, a: Id, b: Id, n: nat)
    ensures ShortestWalk(edges, a, b, n) <==> ShortestWalk(Reverse(edges), b, a, n)
  {
    forall m: nat ensures Walk(edges, a, b, m) <==> Walk(Reverse(edges), b, a, m) {
      WalkReversed(edges, a, b, m);
    }
  }
}
