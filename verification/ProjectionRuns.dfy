/**
 * Commits interleaved with projections. A projection runs in phases, each a separate statement
 * against the graph or the tables, and any command may commit between two phases; the mutex only
 * keeps two projections from overlapping.
 */
module ProjectionRuns {
  import opened Common
  import opened Sorting
  import opened Transclusion
  import opened SharedText
  import opened Projection

  datatype Phase =
    | DropMerged
    | DropOwn
    | ReadNotes
    | ReadTasks(notes: set<Id>)
    | WriteEdges(todo: seq<(EntityRef, EntityRef)>)

  /** `pending` holds the projections owed by commits and not yet begun; `running` holds the mutex. */
  datatype System = System(tables: Grouped, edges: LinkGraph, pending: multiset<Job>, running: Option<(Job, Phase)>)

  datatype Action =
    | Commit(command: Command)
    | Replay(job: Job)  // the catch-up worker projects a recorded event again
    | Begin(job: Job)
    | Advance

  /** The projection a committed command owes, if any. */
  function Owed(g: Grouped, c: Command): Option<Job> {
    match c
    case Create(_, _, _, _, _) => None
    case Update(ws, e, _, _, _) =>
      var row := g.Fetch(ws, e);
      if row.Ok? && row.value.transclusionId.Some? then Some(Job(row.value.transclusionId.value, None)) else None
    case Link(ws, from, to, now) =>
      var r := Linked(g, ws, from, to, now);
      if r.Ok? then Some(Job(r.value.1.canonicalGroupId, r.value.1.mergedGroupId)) else None
    case Touch(_, _, _) => None
  }

  /** A replayed event names some group, and a merged group only as a committed link recorded it. */
  ghost predicate Replayable(g: Grouped, job: Job) {
    job.mergedGroupId.None? || exists l :: l in g.links && l.mergedGroupId == job.mergedGroupId
  }

  function StepsLeft(phase: Phase): nat {
    match phase
    case DropMerged => 4
    case DropOwn => 3
    case ReadNotes => 2
    case ReadTasks(_) => 1
    case WriteEdges(_) => 0
  }

  function NextPhase(g: Grouped, job: Job, phase: Phase): (next: Phase)
    requires phase != WriteEdges([])
    ensures StepsLeft(next) < StepsLeft(phase)
         || (phase.WriteEdges? && next.WriteEdges? && |next.todo| < |phase.todo|)
  {
    match phase
    case DropMerged => DropOwn
    case DropOwn => ReadNotes
    case ReadNotes => ReadTasks(MemberIds(g.notes, job.groupId))
    case ReadTasks(notes) => WriteEdges(Pairs(SortedRefs(notes, MemberIds(g.tasks, job.groupId))))
    case WriteEdges(todo) => WriteEdges(todo[1..])
  }

  function AdvanceFrom(s: System, job: Job, phase: Phase): System {
    if phase == WriteEdges([]) then s.(running := None)
    else
      var edges :=
        match phase
        case DropMerged => if job.mergedGroupId.Some? then DropLabel(s.edges, job.mergedGroupId.value) else s.edges
        case DropOwn => DropLabel(s.edges, job.groupId)
        case WriteEdges(todo) => s.edges[todo[0] := job.groupId]
        case _ => s.edges;
      s.(edges := edges, running := Some((job, NextPhase(s.tables, job, phase))))
  }

  /** An action that is not enabled leaves the system as it was. */
  ghost function Next(s: System, a: Action): System {
    match a
    case Commit(c) =>
      var r, owed := Step(s.tables, c), Owed(s.tables, c);
      if r.Err? then s
      else s.(tables := r.value, pending := if owed.Some? then s.pending + multiset{owed.value} else s.pending)
    case Replay(job) => if Replayable(s.tables, job) then s.(pending := s.pending + multiset{job}) else s
    case Begin(job) =>
      if s.running.None? && job in s.pending
      then s.(pending := s.pending - multiset{job}, running := Some((job, DropMerged)))
      else s
    case Advance => if s.running.Some? then AdvanceFrom(s, s.running.value.0, s.running.value.1) else s
  }

  ghost function Execute(s: System, actions: seq<Action>): System
    decreases |actions|
  {
    if actions == [] then s else Execute(Next(s, actions[0]), actions[1..])
  }

  const START := System(EMPTY_GROUPED, map[], multiset{}, None)

  // ---------------------------------------------------------------------------------------------
  // History: what the log of links says about live and merged groups
  // ---------------------------------------------------------------------------------------------

  ghost predicate History(g: Grouped) {
    && (forall id | id in g.groups :: exists l :: l in g.links && l.transclusionId == id)
    && (forall l | l in g.links && l.mergedGroupId.Some? :: l.mergedGroupId.value !in g.groups)
  }

  /** A group id once used and now gone never comes back. */
  ghost predicate GroupsRetire(g: Grouped, next: Grouped) {
    && g.nextId <= next.nextId
    && g.links <= next.links
    && (forall id | id < g.nextId && id !in g.groups :: id !in next.groups)
  }

  lemma StepKeepsHistory(g: Grouped, c: Command)
    requires Sound(g) && History(g) && Step(g, c).Ok?
    ensures History(Step(g, c).value) && GroupsRetire(g, Step(g, c).value)
  {
    match c
    case Create(_, _, _, _, _) => UnlinkedKeepsHistory(g, c);
    case Update(_, _, _, _, _) => UnlinkedKeepsHistory(g, c);
    case Touch(_, _, _) => UnlinkedKeepsHistory(g, c);
    case Link(ws, from, to, now) =>
      LinkGroupIds(g, ws, from, to, now);
      LinkKeepsHistory(g, ws, from, to, now);
  }

  lemma UnlinkedKeepsHistory(g: Grouped, c: Command)
    requires History(g) && Step(g, c).Ok? && !c.Link?
    ensures History(Step(g, c).value) && GroupsRetire(g, Step(g, c).value)
  {
    var next := Step(g, c).value;
    assert next.links == g.links && next.groups.Keys == g.groups.Keys && g.nextId <= next.nextId;
    SameGroupsSameHistory(g, next);
  }

  lemma SameGroupsSameHistory(g: Grouped, next: Grouped)
    requires History(g) && next.links == g.links && next.groups.Keys == g.groups.Keys && g.nextId <= next.nextId
    ensures History(next) && GroupsRetire(g, next)
  {
    assert forall id :: id in next.groups <==> id in next.groups.Keys;
    assert forall id :: id in g.groups <==> id in g.groups.Keys;
  }

  lemma LinkGroupIds(g: Grouped, workspace: string, from: EntityRef, to: EntityRef, now: Time)
    requires Sound(g) && Linked(g, workspace, from, to, now).Ok?
    ensures var group := Linked(g, workspace, from, to, now).value.1;
            && (group.canonicalGroupId in g.groups || group.canonicalGroupId == g.nextId)
            && (group.mergedGroupId.Some? ==>
               group.mergedGroupId.value in g.groups && group.mergedGroupId.value != group.canonicalGroupId)
            && (forall id | id in g.groups :: id < g.nextId)
            && (forall l | l in g.links && l.mergedGroupId.Some? :: l.mergedGroupId.value < g.nextId)
  {
  }

  lemma LinkKeepsHistory(g: Grouped, workspace: string, from: EntityRef, to: EntityRef, now: Time)
    requires History(g) && Linked(g, workspace, from, to, now).Ok?
    requires var group := Linked(g, workspace, from, to, now).value.1;
            && (group.canonicalGroupId in g.groups || group.canonicalGroupId == g.nextId)
            && (group.mergedGroupId.Some? ==>
               group.mergedGroupId.value in g.groups && group.mergedGroupId.value != group.canonicalGroupId)
            && (forall id | id in g.groups :: id < g.nextId)
            && (forall l | l in g.links && l.mergedGroupId.Some? :: l.mergedGroupId.value < g.nextId)
    ensures History(Linked(g, workspace, from, to, now).value.0)
            && GroupsRetire(g, Linked(g, workspace, from, to, now).value.0)
  {
    var (next, group) := Linked(g, workspace, from, to, now).value;
    var l := LinkEvent(from, to, group.canonicalGroupId, group.mergedGroupId);
    assert next.links == g.links + [l];
    assert next.groups.Keys <= g.groups.Keys + {group.canonicalGroupId};
    assert group.mergedGroupId.Some? ==> group.mergedGroupId.value !in next.groups;
    OneLinkKeepsHistory(g, l, next);
  }

  lemma OneLinkKeepsHistory(g: Grouped, l: LinkEvent, next: Grouped)
    requires History(g) && next.links == g.links + [l]
    requires next.groups.Keys <= g.groups.Keys + {l.transclusionId}
    requires l.mergedGroupId.Some? ==> l.mergedGroupId.value !in next.groups
    requires forall k | k in g.links && k.mergedGroupId.Some? :: k.mergedGroupId.value != l.transclusionId
    ensures History(next)
  {
    assert l in next.links && (forall k | k in g.links :: k in next.links)
           && (forall k | k in next.links :: k in g.links || k == l);
    forall id | id in next.groups ensures exists k :: k in next.links && k.transclusionId == id {
      if id != l.transclusionId {
        var k :| k in g.links && k.transclusionId == id;
        assert k in next.links;
      } else {
        assert l.transclusionId == id;
      }
    }
  }

  // ---------------------------------------------------------------------------------------------
  // The invariant
  // ---------------------------------------------------------------------------------------------

  ghost predicate OwesFor(s: System, groupId: Id) {
    exists job :: job in s.pending && job.groupId == groupId
  }

  ghost predicate OwesDrop(s: System, groupId: Id) {
    exists job :: job in s.pending && job.mergedGroupId == Some(groupId)
  }

  /** Edges labelled `groupId` are still going to be deleted as those of a merged group. */
  ghost predicate WillDrop(s: System, groupId: Id) {
    || OwesDrop(s, groupId)
    || (s.running.Some? && s.running.value.1.DropMerged? && s.running.value.0.mergedGroupId == Some(groupId))
  }

  /** The running projection is still going to draw the edge between members `a` and `b` of its group. */
  ghost predicate WillDraw(phase: Phase, a: EntityRef, b: EntityRef) {
    match phase
    case DropMerged => true
    case DropOwn => true
    case ReadNotes => true
    case ReadTasks(notes) => (a.Note? ==> a.id in notes) && (b.Note? ==> b.id in notes)
    case WriteEdges(todo) => (a, b) in todo
  }

  /** Every drawn edge joins two members of its label's group, or carries a label that is to be dropped. */
  ghost predicate EdgesJustified(s: System) {
    forall a, b | (a, b) in s.edges ::
      && RefBefore(a, b) && s.tables.Has(a) && s.tables.Has(b)
      && ((MemberOf(s.tables, s.edges[(a, b)], a) && MemberOf(s.tables, s.edges[(a, b)], b))
         || WillDrop(s, s.edges[(a, b)]))
  }

  ghost predicate EdgeCovered(s: System, a: EntityRef, b: EntityRef, groupId: Id) {
    || ((a, b) in s.edges && s.edges[(a, b)] == groupId)
    || OwesFor(s, groupId)
    || (s.running.Some? && s.running.value.0.groupId == groupId && WillDraw(s.running.value.1, a, b))
  }

  /** Every pair of members has its edge, or a projection that is to draw it. */
  ghost predicate PairsCovered(s: System) {
    forall a, b | Paired(s.tables, a, b) :: EdgeCovered(s, a, b, s.tables.Row(a).transclusionId.value)
  }

  /** A ref read by the running projection is still a member, or its new group is owed a projection. */
  ghost predicate ReadStillOwed(s: System, groupId: Id, r: EntityRef) {
    && s.tables.Has(r)
    && s.tables.Row(r).transclusionId.Some?
    && (s.tables.Row(r).transclusionId == Some(groupId)
        || (OwesDrop(s, groupId) && OwesFor(s, s.tables.Row(r).transclusionId.value)))
  }

  ghost predicate SnapshotOwed(s: System) {
    s.running.Some? ==>
      match s.running.value.1
      case ReadTasks(notes) => forall id | id in notes :: ReadStillOwed(s, s.running.value.0.groupId, Note(id))
      case WriteEdges(todo) => forall e | e in todo ::
        RefBefore(e.0, e.1) && ReadStillOwed(s, s.running.value.0.groupId, e.0)
          && ReadStillOwed(s, s.running.value.0.groupId, e.1)
      case _ => true
  }

  ghost predicate MergedIsDead(g: Grouped, job: Job) {
    job.mergedGroupId.Some? ==> job.mergedGroupId.value < g.nextId && job.mergedGroupId.value !in g.groups
  }

  ghost predicate JobsNameDeadGroups(s: System) {
    && (forall job | job in s.pending :: MergedIsDead(s.tables, job))
    && (s.running.Some? ==> MergedIsDead(s.tables, s.running.value.0))
  }

  /** The part of the invariant that ties edges and projections to the tables. */
  ghost predicate Tied(s: System) {
    && JobsNameDeadGroups(s)
    && EdgesJustified(s)
    && PairsCovered(s)
    && SnapshotOwed(s)
  }

  ghost predicate Invariant(s: System) {
    Sound(s.tables) && History(s.tables) && Tied(s)
  }

  // ---------------------------------------------------------------------------------------------
  // Commits
  // ---------------------------------------------------------------------------------------------

  /** A commit moves an entity to another group only when it owes that group a projection that drops the old one. */
  lemma CommitMovesOnlyWhatItOwes(g: Grouped, c: Command, r: EntityRef)
    requires Sound(g) && Step(g, c).Ok? && g.Has(r)
    ensures var next := Step(g, c).value;
            && next.Has(r)
            && (next.Row(r).transclusionId == g.Row(r).transclusionId
                || (&& Owed(g, c).Some?
                    && next.Row(r).transclusionId == Some(Owed(g, c).value.groupId)
                    && (g.Row(r).transclusionId.Some? ==> Owed(g, c).value.mergedGroupId == g.Row(r).transclusionId)))
  {
    match c
    case Create(_, _, _, _, _) =>
    case Update(ws, e, title, content, now) => UpdatedRows(g, ws, e, title, content, now, r);
    case Link(ws, from, to, now) =>
      LinkedRows(g, ws, from, to, now, r);
    case Touch(_, _, _) =>
  }

  /**
   * What a commit owes: an update of a grouped entity the projection of its group, a link that of the group
   * both ends are in afterwards, with the target's old group to drop if it was another; nothing else does.
   */
  lemma OwedIsTheGroupAfterwards(g: Grouped, c: Command)
    requires Step(g, c).Ok?
    ensures c.Create? || c.Touch? ==> Owed(g, c) == None
    ensures c.Update? ==>
              var row := Step(g, c).value.Row(c.entity);
              Owed(g, c) == if row.transclusionId.Some? then Some(Job(row.transclusionId.value, None)) else None
    ensures c.Link? ==>
              var next := Step(g, c).value;
              var before, after := g.Row(c.to).transclusionId, next.Row(c.from).transclusionId;
              && after.Some? && next.Row(c.to).transclusionId == after
              && Owed(g, c) == Some(Job(after.value, if before.Some? && before != after then before else None))
  {
  }

  /** A pair of members that was not a pair before is owed its edge. */
  lemma NewPairsAreOwed(g: Grouped, c: Command, a: EntityRef, b: EntityRef)
    requires Sound(g) && Step(g, c).Ok?
    requires Paired(Step(g, c).value, a, b)
    ensures (Paired(g, a, b) && Step(g, c).value.Row(a).transclusionId == g.Row(a).transclusionId)
         || (Owed(g, c).Some? && Step(g, c).value.Row(a).transclusionId == Some(Owed(g, c).value.groupId))
  {
    match c
    case Create(asTask, ws, title, content, now) =>
    case Update(ws, e, title, content, now) =>
      UpdatedRows(g, ws, e, title, content, now, a);
      UpdatedRows(g, ws, e, title, content, now, b);
    case Link(ws, from, to, now) =>
      LinkedRows(g, ws, from, to, now, a);
      LinkedRows(g, ws, from, to, now, b);
    case Touch(_, _, _) =>
  }

  lemma OwedNamesDeadGroup(g: Grouped, c: Command)
    requires Sound(g) && History(g) && Step(g, c).Ok? && Owed(g, c).Some?
    ensures MergedIsDead(Step(g, c).value, Owed(g, c).value)
  {
    if c.Link? { LinkOwesDeadGroup(g, c.workspace, c.from, c.to, c.now); }
  }

  lemma LinkOwesDeadGroup(g: Grouped, workspace: string, from: EntityRef, to: EntityRef, now: Time)
    requires Sound(g) && Linked(g, workspace, from, to, now).Ok?
    ensures var (next, group) := Linked(g, workspace, from, to, now).value;
            MergedIsDead(next, Job(group.canonicalGroupId, group.mergedGroupId))
  {
    LinkGroupIds(g, workspace, from, to, now);
  }

  lemma StepKeepsSound(g: Grouped, c: Command)
    requires Sound(g) && Step(g, c).Ok?
    ensures Sound(Step(g, c).value)
  {
    match c
    case Create(asTask, ws, title, content, now) => CreateKeepsSound(g, asTask, ws, title, content, now);
    case Update(ws, e, title, content, now) => UpdateKeepsSound(g, ws, e, title, content, now);
    case Link(ws, from, to, now) => LinkKeepsSound(g, ws, from, to, now);
    case Touch(ws, taskId, now) => TouchKeepsSound(g, ws, taskId, now);
  }

  lemma PendingGrows(s: System, next: System)
    requires s.pending <= next.pending
    ensures forall id: Id :: OwesFor(s, id) ==> OwesFor(next, id)
    ensures forall id: Id :: OwesDrop(s, id) ==> OwesDrop(next, id)
  {
    forall id: Id | OwesFor(s, id) ensures OwesFor(next, id) {
      var job :| job in s.pending && job.groupId == id;
      assert job in next.pending;
    }
    forall id: Id | OwesDrop(s, id) ensures OwesDrop(next, id) {
      var job :| job in s.pending && job.mergedGroupId == Some(id);
      assert job in next.pending;
    }
  }

  /** What a commit leaves owed. */
  lemma CommitOwes(s: System, c: Command)
    requires Step(s.tables, c).Ok?
    ensures var next := Next(s, Commit(c));
            && s.pending <= next.pending
            && (Owed(s.tables, c).Some? ==>
                  var owed := Owed(s.tables, c).value;
                  && OwesFor(next, owed.groupId)
                  && (owed.mergedGroupId.Some? ==> OwesDrop(next, owed.mergedGroupId.value)))
            && forall job | job in next.pending :: job in s.pending || Owed(s.tables, c) == Some(job)
  {
    var next := Next(s, Commit(c));
    if Owed(s.tables, c).Some? { assert Owed(s.tables, c).value in next.pending; }
  }

  lemma CommitKeepsJobs(s: System, c: Command)
    requires Invariant(s) && Step(s.tables, c).Ok?
    ensures JobsNameDeadGroups(Next(s, Commit(c)))
  {
    CommitOwes(s, c);
    StepKeepsHistory(s.tables, c);
    if Owed(s.tables, c).Some? { OwedNamesDeadGroup(s.tables, c); }
  }

  lemma CommitKeepsEdgesJustified(s: System, c: Command)
    requires Invariant(s) && Step(s.tables, c).Ok?
    ensures EdgesJustified(Next(s, Commit(c)))
  {
    var next := Next(s, Commit(c));
    CommitOwes(s, c);
    PendingGrows(s, next);
    forall a, b | (a, b) in next.edges
      ensures RefBefore(a, b) && next.tables.Has(a) && next.tables.Has(b)
      ensures (MemberOf(next.tables, next.edges[(a, b)], a) && MemberOf(next.tables, next.edges[(a, b)], b))
              || WillDrop(next, next.edges[(a, b)])
    {
      CommitMovesOnlyWhatItOwes(s.tables, c, a);
      CommitMovesOnlyWhatItOwes(s.tables, c, b);
    }
  }

  lemma CommitKeepsPairsCovered(s: System, c: Command)
    requires Invariant(s) && Step(s.tables, c).Ok?
    ensures PairsCovered(Next(s, Commit(c)))
  {
    var next := Next(s, Commit(c));
    CommitOwes(s, c);
    PendingGrows(s, next);
    forall a, b | Paired(next.tables, a, b) ensures EdgeCovered(next, a, b, next.tables.Row(a).transclusionId.value) {
      NewPairsAreOwed(s.tables, c, a, b);
      if Paired(s.tables, a, b) { assert EdgeCovered(s, a, b, s.tables.Row(a).transclusionId.value); }
    }
  }

  lemma CommitKeepsSnapshot(s: System, c: Command)
    requires Invariant(s) && Step(s.tables, c).Ok?
    ensures SnapshotOwed(Next(s, Commit(c)))
  {
    var next := Next(s, Commit(c));
    CommitOwes(s, c);
    PendingGrows(s, next);
    forall groupId, r | ReadStillOwed(s, groupId, r) ensures ReadStillOwed(next, groupId, r) {
      CommitMovesOnlyWhatItOwes(s.tables, c, r);
    }
  }

  lemma CommitKeepsInvariant(s: System, c: Command)
    requires Invariant(s)
    ensures Invariant(Next(s, Commit(c)))
  {
    if Step(s.tables, c).Ok? {
      StepKeepsSound(s.tables, c);
      StepKeepsHistory(s.tables, c);
      CommitKeepsJobs(s, c);
      CommitKeepsEdgesJustified(s, c);
      CommitKeepsPairsCovered(s, c);
      CommitKeepsSnapshot(s, c);
    }
  }

  // ---------------------------------------------------------------------------------------------
  // Projection steps
  // ---------------------------------------------------------------------------------------------

  /** Members keep what they were owed when only edges, or the set of pending projections, change. */
  lemma OwedCarriesOver(s: System, next: System)
    requires s.tables == next.tables && s.pending <= next.pending
    ensures forall groupId, r :: ReadStillOwed(s, groupId, r) ==> ReadStillOwed(next, groupId, r)
  {
    PendingGrows(s, next);
  }

  lemma ReplayKeepsTied(s: System, job: Job)
    requires Tied(s) && MergedIsDead(s.tables, job)
    ensures Tied(s.(pending := s.pending + multiset{job}))
  {
    var next := s.(pending := s.pending + multiset{job});
    PendingGrows(s, next);
    OwedCarriesOver(s, next);
    assert forall j | j in next.pending :: j in s.pending || j == job;
    forall a, b | Paired(s.tables, a, b) ensures EdgeCovered(next, a, b, s.tables.Row(a).transclusionId.value) {
      assert EdgeCovered(s, a, b, s.tables.Row(a).transclusionId.value);
    }
  }

  lemma BeginKeepsTied(s: System, job: Job)
    requires Tied(s) && s.running.None? && job in s.pending
    ensures Tied(s.(pending := s.pending - multiset{job}, running := Some((job, DropMerged))))
  {
    var next := s.(pending := s.pending - multiset{job}, running := Some((job, DropMerged)));
    assert forall j | j in s.pending && j != job :: j in next.pending;
    forall id: Id | OwesDrop(s, id) ensures WillDrop(next, id) {
      var j :| j in s.pending && j.mergedGroupId == Some(id);
      if j != job { assert j in next.pending; }
    }
    forall id: Id | OwesFor(s, id) ensures OwesFor(next, id) || job.groupId == id {
      var j :| j in s.pending && j.groupId == id;
      if j != job { assert j in next.pending; }
    }
    forall a, b | Paired(s.tables, a, b) ensures EdgeCovered(next, a, b, s.tables.Row(a).transclusionId.value) {
      assert EdgeCovered(s, a, b, s.tables.Row(a).transclusionId.value);
    }
  }

  lemma DropKeepsTied(s: System, job: Job, phase: Phase)
    requires Tied(s) && MembersMatchGroups(s.tables)
    requires s.running == Some((job, phase)) && (phase.DropMerged? || phase.DropOwn?)
    ensures Tied(AdvanceFrom(s, job, phase))
  {
    var next := AdvanceFrom(s, job, phase);
    PendingGrows(s, next);
    forall a, b | Paired(s.tables, a, b) ensures EdgeCovered(next, a, b, s.tables.Row(a).transclusionId.value) {
      var groupId := s.tables.Row(a).transclusionId.value;
      assert EdgeCovered(s, a, b, groupId);
      assert groupId in s.tables.groups;
    }
    forall a, b | (a, b) in next.edges
      ensures (MemberOf(next.tables, next.edges[(a, b)], a) && MemberOf(next.tables, next.edges[(a, b)], b))
              || WillDrop(next, next.edges[(a, b)])
    {
      assert (a, b) in s.edges && next.edges[(a, b)] == s.edges[(a, b)];
    }
  }

  lemma ReadNotesKeepsTied(s: System, job: Job)
    requires Tied(s) && s.running == Some((job, ReadNotes))
    ensures Tied(AdvanceFrom(s, job, ReadNotes))
  {
    var next := AdvanceFrom(s, job, ReadNotes);
    PendingGrows(s, next);
    forall a, b | Paired(s.tables, a, b) ensures EdgeCovered(next, a, b, s.tables.Row(a).transclusionId.value) {
      assert EdgeCovered(s, a, b, s.tables.Row(a).transclusionId.value);
    }
  }

  lemma ReadTasksKeepsTied(s: System, job: Job, notes: set<Id>)
    requires Tied(s) && s.running == Some((job, ReadTasks(notes)))
    ensures Tied(AdvanceFrom(s, job, ReadTasks(notes)))
  {
    var next := AdvanceFrom(s, job, ReadTasks(notes));
    var tasks := MemberIds(s.tables.tasks, job.groupId);
    var refs := SortedRefs(notes, tasks);
    PendingGrows(s, next);
    forall a, b ensures (a, b) in Pairs(refs) <==> a in refs && b in refs && RefBefore(a, b) {
      PairsAreOrderedPairs(refs, a, b);
    }
    ReadRefsAreOwed(s, job, notes);
    forall e | e in Pairs(refs)
      ensures RefBefore(e.0, e.1) && ReadStillOwed(next, job.groupId, e.0) && ReadStillOwed(next, job.groupId, e.1)
    {
      assert (e.0, e.1) in Pairs(refs);
    }
    forall a, b | Paired(s.tables, a, b) ensures EdgeCovered(next, a, b, s.tables.Row(a).transclusionId.value) {
      assert EdgeCovered(s, a, b, s.tables.Row(a).transclusionId.value);
      PairOfMembersIsRead(s, job, notes, a, b);
    }
  }

  lemma ReadRefsAreOwed(s: System, job: Job, notes: set<Id>)
    requires Tied(s) && s.running == Some((job, ReadTasks(notes)))
    ensures var next := AdvanceFrom(s, job, ReadTasks(notes));
            forall r | r in SortedRefs(notes, MemberIds(s.tables.tasks, job.groupId)) ::
              ReadStillOwed(next, job.groupId, r)
  {
    var next := AdvanceFrom(s, job, ReadTasks(notes));
    var tasks := MemberIds(s.tables.tasks, job.groupId);
    OwedCarriesOver(s, next);
    forall r | r in SortedRefs(notes, tasks) ensures ReadStillOwed(next, job.groupId, r) {
      if r.Note? { assert ReadStillOwed(s, job.groupId, Note(r.id)); } else { assert r.id in tasks; }
    }
  }

  lemma PairOfMembersIsRead(s: System, job: Job, notes: set<Id>, a: EntityRef, b: EntityRef)
    requires Paired(s.tables, a, b)
    ensures s.tables.Row(a).transclusionId == Some(job.groupId) && WillDraw(ReadTasks(notes), a, b)
        ==> var refs := SortedRefs(notes, MemberIds(s.tables.tasks, job.groupId)); a in refs && b in refs
  {
  }

  lemma WriteKeepsEdges(s: System, job: Job, todo: seq<(EntityRef, EntityRef)>)
    requires EdgesJustified(s) && SnapshotOwed(s) && s.running == Some((job, WriteEdges(todo))) && todo != []
    ensures EdgesJustified(AdvanceFrom(s, job, WriteEdges(todo)))
  {
    var next := AdvanceFrom(s, job, WriteEdges(todo));
    PendingGrows(s, next);
    assert todo[0] in todo;
    assert ReadStillOwed(s, job.groupId, todo[0].0) && ReadStillOwed(s, job.groupId, todo[0].1);
    forall a, b | (a, b) in next.edges
      ensures RefBefore(a, b) && s.tables.Has(a) && s.tables.Has(b)
      ensures (MemberOf(s.tables, next.edges[(a, b)], a) && MemberOf(s.tables, next.edges[(a, b)], b))
              || WillDrop(next, next.edges[(a, b)])
    {
      if (a, b) != todo[0] { assert (a, b) in s.edges && next.edges[(a, b)] == s.edges[(a, b)]; }
    }
  }

  lemma WriteKeepsCover(s: System, job: Job, todo: seq<(EntityRef, EntityRef)>)
    requires PairsCovered(s) && SnapshotOwed(s) && s.running == Some((job, WriteEdges(todo)))
    ensures PairsCovered(AdvanceFrom(s, job, WriteEdges(todo)))
  {
    var next := AdvanceFrom(s, job, WriteEdges(todo));
    PendingGrows(s, next);
    forall a, b | Paired(s.tables, a, b) ensures EdgeCovered(next, a, b, s.tables.Row(a).transclusionId.value) {
      assert EdgeCovered(s, a, b, s.tables.Row(a).transclusionId.value);
      if todo != [] {
        assert todo == [todo[0]] + todo[1..];
        if (a, b) == todo[0] { assert ReadStillOwed(s, job.groupId, todo[0].0); }
      }
    }
  }

  lemma WriteKeepsTied(s: System, job: Job, todo: seq<(EntityRef, EntityRef)>)
    requires Tied(s) && s.running == Some((job, WriteEdges(todo)))
    ensures Tied(AdvanceFrom(s, job, WriteEdges(todo)))
  {
    var next := AdvanceFrom(s, job, WriteEdges(todo));
    WriteKeepsCover(s, job, todo);
    OwedCarriesOver(s, next);
    if todo != [] {
      WriteKeepsEdges(s, job, todo);
      assert forall e | e in todo[1..] :: e in todo;
    } else {
      PendingGrows(s, next);
    }
  }

  lemma NextKeepsInvariant(s: System, a: Action)
    requires Invariant(s)
    ensures Invariant(Next(s, a))
  {
    match a
    case Commit(c) => CommitKeepsInvariant(s, c);
    case Replay(job) => if Replayable(s.tables, job) { RecordedMergeIsDead(s.tables, job); ReplayKeepsTied(s, job); }
    case Begin(job) => if s.running.None? && job in s.pending { BeginKeepsTied(s, job); }
    case Advance =>
      if s.running.Some? {
        var (job, phase) := s.running.value;
        match phase
        case DropMerged => DropKeepsTied(s, job, phase);
        case DropOwn => DropKeepsTied(s, job, phase);
        case ReadNotes => ReadNotesKeepsTied(s, job);
        case ReadTasks(notes) => ReadTasksKeepsTied(s, job, notes);
        case WriteEdges(todo) => WriteKeepsTied(s, job, todo);
      }
  }

  lemma RecordedMergeIsDead(g: Grouped, job: Job)
    requires IdsAreUsed(g) && History(g) && Replayable(g, job)
    ensures MergedIsDead(g, job)
  {
  }

  lemma {:induction false} ExecuteKeepsInvariant(s: System, actions: seq<Action>)
    requires Invariant(s)
    ensures Invariant(Execute(s, actions))
    decreases |actions|
  {
    if actions != [] {
      NextKeepsInvariant(s, actions[0]);
      ExecuteKeepsInvariant(Next(s, actions[0]), actions[1..]);
    }
  }

  /** However commits, replays and projections interleave, the graph is canonical whenever nothing is owed. */
  lemma GraphConverges(actions: seq<Action>)
    requires var s := Execute(START, actions); s.pending == multiset{} && s.running.None?
    ensures var s := Execute(START, actions); IsCanonical(s.edges, s.tables)
  {
    EmptyIsSound();
    ExecuteKeepsInvariant(START, actions);
    QuietIsCanonical(Execute(START, actions));
  }

  lemma QuietIsCanonical(s: System)
    requires Invariant(s) && s.pending == multiset{} && s.running.None?
    ensures IsCanonical(s.edges, s.tables)
  {
    forall a, b
      ensures (a, b) in s.edges <==> Paired(s.tables, a, b)
      ensures Paired(s.tables, a, b) ==> Some(s.edges[(a, b)]) == s.tables.Row(a).transclusionId
    {
      if Paired(s.tables, a, b) { assert EdgeCovered(s, a, b, s.tables.Row(a).transclusionId.value); }
    }
  }

  // ---------------------------------------------------------------------------------------------
  // Projections that run undisturbed, and rebuilding the graph from the log
  // ---------------------------------------------------------------------------------------------

  /** Runs the projection that stands at `phase` to its end with no commit in between. */
  function Finish(s: System, job: Job, phase: Phase): System
    decreases StepsLeft(phase), if phase.WriteEdges? then |phase.todo| else 0
  {
    if phase == WriteEdges([]) then AdvanceFrom(s, job, phase)
    else Finish(AdvanceFrom(s, job, phase), job, NextPhase(s.tables, job, phase))
  }

  /** `Finish` is a run of `Advance` actions of the interleaved system. */
  lemma {:induction false} FinishIsAdvancing(s: System, job: Job, phase: Phase) returns (actions: seq<Action>)
    requires s.running == Some((job, phase))
    ensures forall a | a in actions :: a.Advance?
    ensures Execute(s, actions) == Finish(s, job, phase)
    decreases StepsLeft(phase), if phase.WriteEdges? then |phase.todo| else 0
  {
    var next := AdvanceFrom(s, job, phase);
    assert Next(s, Advance) == next;
    var rest: seq<Action> := [];
    if next.running.Some? {
      rest := FinishIsAdvancing(next, job, next.running.value.1);
    }
    actions := [Advance] + rest;
    ExecuteFirst(s, Advance, rest);
  }

  lemma ExecuteFirst(s: System, a: Action, rest: seq<Action>)
    ensures Execute(s, [a] + rest) == Execute(Next(s, a), rest)
  {
    assert ([a] + rest)[1..] == rest;
  }

  lemma {:induction false} FinishWrites(s: System, job: Job, todo: seq<(EntityRef, EntityRef)>)
    ensures var end := Finish(s, job, WriteEdges(todo));
            && end == s.(edges := end.edges, running := None)
            && (forall e ::
                  if e in todo then e in end.edges && end.edges[e] == job.groupId
                  else (e in end.edges <==> e in s.edges) && (e in s.edges ==> end.edges[e] == s.edges[e]))
    decreases |todo|
  {
    if todo != [] {
      assert todo == [todo[0]] + todo[1..];
      FinishWrites(AdvanceFrom(s, job, WriteEdges(todo)), job, todo[1..]);
    }
  }

  function MemberPairs(g: Grouped, groupId: Id): seq<(EntityRef, EntityRef)> {
    Pairs(SortedRefs(MemberIds(g.notes, groupId), MemberIds(g.tasks, groupId)))
  }

  lemma MemberPairsAreOrderedMembers(g: Grouped, groupId: Id, a: EntityRef, b: EntityRef)
    ensures (a, b) in MemberPairs(g, groupId) <==> RefBefore(a, b) && MemberOf(g, groupId, a) && MemberOf(g, groupId, b)
  {
    var refs := SortedRefs(MemberIds(g.notes, groupId), MemberIds(g.tasks, groupId));
    SortedRefsAreMembers(g, groupId, refs);
    PairsAreOrderedPairs(refs, a, b);
  }

  lemma FinishOnePhase(s: System, job: Job, phase: Phase, next: System, nextPhase: Phase)
    requires phase != WriteEdges([]) && next == AdvanceFrom(s, job, phase)
             && nextPhase == NextPhase(s.tables, job, phase)
    ensures Finish(s, job, phase) == Finish(next, job, nextPhase)
  {
  }

  /** From the reads on, an undisturbed projection only writes the pairs of members. */
  lemma FinishReads(s: System, job: Job)
    ensures var writing := WriteEdges(MemberPairs(s.tables, job.groupId));
            Finish(s, job, ReadNotes) == Finish(s.(running := Some((job, writing))), job, writing)
  {
    var notes := MemberIds(s.tables.notes, job.groupId);
    var reading := s.(running := Some((job, ReadTasks(notes))));
    var writing := s.(running := Some((job, WriteEdges(MemberPairs(s.tables, job.groupId)))));
    FinishOnePhase(s, job, ReadNotes, reading, ReadTasks(notes));
    FinishOnePhase(reading, job, ReadTasks(notes), writing, WriteEdges(MemberPairs(s.tables, job.groupId)));
  }

  lemma FinishDraws(s: System, job: Job)
    ensures var end := Finish(s, job, ReadNotes);
            && end == s.(edges := end.edges, running := None)
            && (forall a, b ::
                  if RefBefore(a, b) && MemberOf(s.tables, job.groupId, a) && MemberOf(s.tables, job.groupId, b)
                  then (a, b) in end.edges && end.edges[(a, b)] == job.groupId
                  else
                    && ((a, b) in end.edges <==> (a, b) in s.edges)
                    && ((a, b) in s.edges ==> end.edges[(a, b)] == s.edges[(a, b)]))
  {
    var todo := MemberPairs(s.tables, job.groupId);
    FinishReads(s, job);
    FinishWrites(s.(running := Some((job, WriteEdges(todo)))), job, todo);
    forall a, b
      ensures (a, b) in todo
              <==> RefBefore(a, b) && MemberOf(s.tables, job.groupId, a) && MemberOf(s.tables, job.groupId, b)
    {
      MemberPairsAreOrderedMembers(s.tables, job.groupId, a, b);
    }
  }

  /** Undisturbed, the phases do together what `reproject_transclusion_group` promises. */
  lemma UndisturbedProjection(s: System, job: Job)
    ensures var end := Finish(s, job, DropMerged);
            && end == s.(edges := end.edges, running := None)
            && Reprojected(s.edges, end.edges, s.tables, job)
  {
    var merged := AdvanceFrom(s, job, DropMerged);
    var dropped := AdvanceFrom(merged, job, DropOwn);
    assert Finish(s, job, DropMerged) == Finish(merged, job, DropOwn);
    assert Finish(merged, job, DropOwn) == Finish(dropped, job, ReadNotes);
    FinishDraws(dropped, job);
    BothLabelsDropped(s, job);
  }

  lemma BothLabelsDropped(s: System, job: Job)
    ensures var dropped := AdvanceFrom(AdvanceFrom(s, job, DropMerged), job, DropOwn);
            && dropped.tables == s.tables && dropped.pending == s.pending
            && forall e ::
                 && (e in dropped.edges
                    <==> e in s.edges && s.edges[e] != job.groupId && Some(s.edges[e]) != job.mergedGroupId)
                 && (e in dropped.edges ==> dropped.edges[e] == s.edges[e])
  {
  }

  /** The logged events whose replay may draw group edges: links, and text updates of notes and tasks. */
  datatype LogEvent = XanaduLinked(link: LinkEvent) | TextUpdated(entity: EntityRef)

  /** The reprojection an event's replay runs: that of its own groups, or of the group its entity is in by now. */
  function ReplayJob(g: Grouped, e: LogEvent): Option<Job> {
    match e
    case XanaduLinked(l) => Some(Job(l.transclusionId, l.mergedGroupId))
    case TextUpdated(r) =>
      if g.Has(r) && g.Row(r).transclusionId.Some? then Some(Job(g.Row(r).transclusionId.value, None)) else None
  }

  /** A replayed text update draws the group that its entity is a member of by now, and drops no other. */
  lemma TextUpdateReplaysItsGroup(g: Grouped, r: EntityRef, groupId: Id)
    ensures ReplayJob(g, TextUpdated(r)) == Some(Job(groupId, None)) <==> MemberOf(g, groupId, r)
    ensures ReplayJob(g, TextUpdated(r)).Some? ==> ReplayJob(g, TextUpdated(r)).value.mergedGroupId == None
  {
  }

  /** The projector on each event of `order` in turn, against tables that no longer change. */
  function Rebuild(edges: LinkGraph, g: Grouped, order: seq<LogEvent>): LinkGraph
    decreases |order|
  {
    if order == [] then edges
    else
      var before := Rebuild(edges, g, order[..|order| - 1]);
      match ReplayJob(g, order[|order| - 1])
      case None => before
      case Some(job) => Finish(System(g, before, multiset{}, None), job, DropMerged).edges
  }

  ghost predicate Replays(g: Grouped, e: LogEvent, groupId: Id) {
    ReplayJob(g, e).Some? && ReplayJob(g, e).value.groupId == groupId
  }

  ghost predicate Replayed(g: Grouped, order: seq<LogEvent>, groupId: Id) {
    exists e :: e in order && Replays(g, e, groupId)
  }

  /** An event names the group: its replay drops all edges of the group first. */
  ghost predicate Names(g: Grouped, e: LogEvent, groupId: Id) {
    Replays(g, e, groupId) || (e.XanaduLinked? && e.link.mergedGroupId == Some(groupId))
  }

  ghost predicate Named(g: Grouped, order: seq<LogEvent>, groupId: Id) {
    exists e :: e in order && Names(g, e, groupId)
  }

  /** The cliques of the groups replayed so far, and of the edges at the start those of groups not named so far. */
  ghost predicate DrawnSoFar(g: Grouped, order: seq<LogEvent>, start: LinkGraph, edges: LinkGraph) {
    forall a, b ::
      if Paired(g, a, b) && Replayed(g, order, g.Row(a).transclusionId.value) then
        (a, b) in edges && Some(edges[(a, b)]) == g.Row(a).transclusionId
      else
        && ((a, b) in edges <==> (a, b) in start && !Named(g, order, start[(a, b)]))
        && ((a, b) in edges ==> edges[(a, b)] == start[(a, b)])
  }

  /** No event drops the edges of a live group as those of a merged one. */
  ghost predicate DropsOnlyDead(g: Grouped, e: LogEvent) {
    e.XanaduLinked? && e.link.mergedGroupId.Some? ==> e.link.mergedGroupId.value !in g.groups
  }

  /** Any events replayed onto any graph: what is drawn and what is left of the graph at the start. */
  lemma {:induction false} RebuildDrawsReplayedGroups(start: LinkGraph, g: Grouped, order: seq<LogEvent>)
    requires MembersMatchGroups(g) && forall e | e in order :: DropsOnlyDead(g, e)
    ensures DrawnSoFar(g, order, start, Rebuild(start, g, order))
    decreases |order|
  {
    if order != [] {
      var rest, last := order[..|order| - 1], order[|order| - 1];
      var before := Rebuild(start, g, rest);
      assert order == rest + [last];
      RebuildDrawsReplayedGroups(start, g, rest);
      ReplayedOneMore(g, rest, last);
      var job := ReplayJob(g, last);
      if job.Some? {
        UndisturbedProjection(System(g, before, multiset{}, None), job.value);
        RebuildStep(g, rest, last, start, before, Rebuild(start, g, order));
      }
    }
  }

  lemma ReplayedOneMore(g: Grouped, rest: seq<LogEvent>, last: LogEvent)
    ensures forall groupId: Id ::
              Replayed(g, rest + [last], groupId) <==> Replayed(g, rest, groupId) || Replays(g, last, groupId)
    ensures forall groupId: Id ::
              Named(g, rest + [last], groupId) <==> Named(g, rest, groupId) || Names(g, last, groupId)
  {
    assert last in rest + [last] && forall e | e in rest :: e in rest + [last];
    assert forall e | e in rest + [last] :: e in rest || e == last;
    forall groupId: Id | Replayed(g, rest, groupId) ensures Replayed(g, rest + [last], groupId) {
      var e :| e in rest && Replays(g, e, groupId);
      assert e in rest + [last];
    }
    forall groupId: Id | Named(g, rest, groupId) ensures Named(g, rest + [last], groupId) {
      var e :| e in rest && Names(g, e, groupId);
      assert e in rest + [last];
    }
  }

  lemma RebuildStep(g: Grouped, rest: seq<LogEvent>, last: LogEvent, start: LinkGraph, before: LinkGraph,
      after: LinkGraph)
    requires MembersMatchGroups(g) && DropsOnlyDead(g, last)
    requires DrawnSoFar(g, rest, start, before)
    requires ReplayJob(g, last).Some? && Reprojected(before, after, g, ReplayJob(g, last).value)
    ensures DrawnSoFar(g, rest + [last], start, after)
  {
    ReplayedOneMore(g, rest, last);
    var job := ReplayJob(g, last).value;
    assert forall groupId :: Names(g, last, groupId) <==> groupId == job.groupId || Some(groupId) == job.mergedGroupId;
    forall a, b
      ensures if Paired(g, a, b) && Replayed(g, rest + [last], g.Row(a).transclusionId.value) then
                (a, b) in after && Some(after[(a, b)]) == g.Row(a).transclusionId
              else
                && ((a, b) in after <==> (a, b) in start && !Named(g, rest + [last], start[(a, b)]))
                && ((a, b) in after ==> after[(a, b)] == start[(a, b)])
    {
      assert Paired(g, a, b) && Replayed(g, rest, g.Row(a).transclusionId.value) ==>
               (a, b) in before && Some(before[(a, b)]) == g.Row(a).transclusionId;
      if Paired(g, a, b) { assert g.Row(a).transclusionId.value in g.groups; }
    }
  }

  /** Each pair is replayed or drawn before. */
  ghost predicate PairsReplayedOrDrawn(start: LinkGraph, g: Grouped, order: seq<LogEvent>) {
    forall a, b | Paired(g, a, b) ::
      var groupId := g.Row(a).transclusionId.value;
      Replayed(g, order, groupId) || ((a, b) in start && start[(a, b)] == groupId)
  }

  /** Each edge of the graph at the start is named or right. */
  ghost predicate EdgesNamedOrRight(start: LinkGraph, g: Grouped, order: seq<LogEvent>) {
    forall a, b | (a, b) in start ::
      Named(g, order, start[(a, b)]) || (Paired(g, a, b) && Some(start[(a, b)]) == g.Row(a).transclusionId)
  }

  lemma RebuildIsCanonical(start: LinkGraph, g: Grouped, order: seq<LogEvent>)
    requires MembersMatchGroups(g) && forall e | e in order :: DropsOnlyDead(g, e)
    requires PairsReplayedOrDrawn(start, g, order) && EdgesNamedOrRight(start, g, order)
    ensures IsCanonical(Rebuild(start, g, order), g)
  {
    RebuildDrawsReplayedGroups(start, g, order);
    var edges := Rebuild(start, g, order);
    forall a, b
      ensures (a, b) in edges <==> Paired(g, a, b)
      ensures Paired(g, a, b) ==> Some(edges[(a, b)]) == g.Row(a).transclusionId
    {
      if Paired(g, a, b) && !Replayed(g, order, g.Row(a).transclusionId.value) {
        NamedLiveIsReplayed(g, order, g.Row(a).transclusionId.value);
        assert g.Row(a).transclusionId.value in g.groups;
      }
    }
  }

  lemma NamedLiveIsReplayed(g: Grouped, order: seq<LogEvent>, groupId: Id)
    requires forall e | e in order :: DropsOnlyDead(g, e)
    ensures groupId in g.groups && Named(g, order, groupId) ==> Replayed(g, order, groupId)
  {
  }

  /** `order` replays every link of the log at least once, and no link that the log lacks. */
  ghost predicate ReplaysTheLog(g: Grouped, order: seq<LogEvent>) {
    && (forall l | l in g.links :: XanaduLinked(l) in order)
    && (forall e | e in order && e.XanaduLinked? :: e.link in g.links)
  }

  /** Every label of the graph is that of a group the log names, as all labels ever drawn are. */
  ghost predicate LabelsAreLogged(edges: LinkGraph, g: Grouped) {
    forall a, b | (a, b) in edges :: IsLogged(g, edges[(a, b)])
  }

  ghost predicate IsLogged(g: Grouped, groupId: Id) {
    exists l :: l in g.links && l.transclusionId == groupId
  }

  /**
   * Replaying the whole log, in any order, with any repetition and with any text updates in between,
   * repairs every graph: whatever pairs its edges join, afterwards they are the canonical cliques of the
   * tables any run has produced.
   */
  lemma RebuildFromLog(commands: seq<Command>, start: LinkGraph, order: seq<LogEvent>)
    requires ReplaysTheLog(Run(EMPTY_GROUPED, commands), order)
    requires LabelsAreLogged(start, Run(EMPTY_GROUPED, commands))
    ensures var g := Run(EMPTY_GROUPED, commands); IsCanonical(Rebuild(start, g, order), g)
  {
    EmptyIsSound();
    RunKeepsHistory(EMPTY_GROUPED, commands);
    RebuildFromTables(Run(EMPTY_GROUPED, commands), start, order);
  }

  lemma RebuildFromTables(g: Grouped, start: LinkGraph, order: seq<LogEvent>)
    requires MembersMatchGroups(g) && History(g) && ReplaysTheLog(g, order) && LabelsAreLogged(start, g)
    ensures IsCanonical(Rebuild(start, g, order), g)
  {
    forall a, b | Paired(g, a, b) ensures Replayed(g, order, g.Row(a).transclusionId.value) {
      LiveGroupIsReplayed(g, order, g.Row(a).transclusionId.value);
    }
    forall a, b | (a, b) in start ensures Named(g, order, start[(a, b)]) {
      LoggedGroupIsNamed(g, order, start[(a, b)]);
    }
    LogDropsOnlyDead(g, order);
    RebuildIsCanonical(start, g, order);
  }

  lemma LogDropsOnlyDead(g: Grouped, order: seq<LogEvent>)
    requires History(g) && forall e | e in order && e.XanaduLinked? :: e.link in g.links
    ensures forall e | e in order :: DropsOnlyDead(g, e)
  {
  }

  lemma LoggedGroupIsNamed(g: Grouped, order: seq<LogEvent>, groupId: Id)
    requires IsLogged(g, groupId) && ReplaysTheLog(g, order)
    ensures Named(g, order, groupId)
  {
    var l :| l in g.links && l.transclusionId == groupId;
    assert XanaduLinked(l) in order && Names(g, XanaduLinked(l), groupId);
  }

  lemma LiveGroupIsReplayed(g: Grouped, order: seq<LogEvent>, groupId: Id)
    requires History(g) && groupId in g.groups && ReplaysTheLog(g, order)
    ensures Replayed(g, order, groupId)
  {
    var l :| l in g.links && l.transclusionId == groupId;
    assert XanaduLinked(l) in order && Replays(g, XanaduLinked(l), groupId);
  }

  lemma {:induction false} RunKeepsHistory(g: Grouped, commands: seq<Command>)
    requires Sound(g) && History(g)
    ensures Sound(Run(g, commands)) && History(Run(g, commands))
    decreases |commands|
  {
    if commands != [] {
      var r := Step(g, commands[0]);
      if r.Ok? {
        StepKeepsSound(g, commands[0]);
        StepKeepsHistory(g, commands[0]);
      }
      RunKeepsHistory(if r.Ok? then r.value else g, commands[1..]);
    }
  }

  // ---------------------------------------------------------------------------------------------
  // Catching up from a cursor
  // ---------------------------------------------------------------------------------------------

  /** The links logged between two states. */
  ghost function NewLinks(before: Grouped, after: Grouped): seq<LinkEvent>
    requires |before.links| <= |after.links|
  {
    after.links[|before.links|..]
  }

  ghost predicate LinkNames(l: LinkEvent, groupId: Id) {
    l.transclusionId == groupId || l.mergedGroupId == Some(groupId)
  }

  /** A group that no link of a run names keeps its members through the run. */
  lemma {:induction false} UnnamedGroupKeepsMembers(g: Grouped, commands: seq<Command>, groupId: Id, r: EntityRef)
    requires Sound(g) && History(g)
    ensures g.links <= Run(g, commands).links
    ensures (forall l | l in NewLinks(g, Run(g, commands)) :: !LinkNames(l, groupId)) ==>
              (MemberOf(Run(g, commands), groupId, r) <==> MemberOf(g, groupId, r))
    decreases |commands|
  {
    if commands != [] {
      var c := commands[0];
      var next := if Step(g, c).Ok? then Step(g, c).value else g;
      if Step(g, c).Ok? {
        StepKeepsSound(g, c);
        StepKeepsHistory(g, c);
      }
      UnnamedGroupKeepsMembers(next, commands[1..], groupId, r);
      var end := Run(g, commands);
      assert end == Run(next, commands[1..]);
      NewLinksInTurn(g, next, end);
      if Step(g, c).Ok? && forall l | l in NewLinks(g, end) :: !LinkNames(l, groupId) {
        StepKeepsUnnamed(g, c, groupId, r);
      }
    }
  }

  lemma NewLinksInTurn(g: Grouped, next: Grouped, end: Grouped)
    requires g.links <= next.links <= end.links
    ensures g.links <= end.links
    ensures forall l :: l in NewLinks(g, end) <==> l in NewLinks(g, next) || l in NewLinks(next, end)
  {
    assert NewLinks(g, end) == NewLinks(g, next) + NewLinks(next, end);
  }

  lemma StepKeepsUnnamed(g: Grouped, c: Command, groupId: Id, r: EntityRef)
    requires Sound(g) && Step(g, c).Ok?
    requires g.links <= Step(g, c).value.links
    requires forall l | l in NewLinks(g, Step(g, c).value) :: !LinkNames(l, groupId)
    ensures MemberOf(Step(g, c).value, groupId, r) <==> MemberOf(g, groupId, r)
  {
    var next := Step(g, c).value;
    if c.Link? {
      var job := Owed(g, c).value;
      var l := LinkEvent(c.from, c.to, job.groupId, job.mergedGroupId);
      assert next.links == g.links + [l] && l in NewLinks(g, next);
    }
    if g.Has(r) { CommitMovesOnlyWhatItOwes(g, c, r); }
  }

  /** `order` replays the links logged since `before`, and only links of the log. */
  ghost predicate ReplaysSince(before: Grouped, now: Grouped, order: seq<LogEvent>) {
    && |before.links| <= |now.links|
    && (forall l | l in NewLinks(before, now) :: XanaduLinked(l) in order)
    && (forall e | e in order && e.XanaduLinked? :: e.link in now.links)
  }

  /** Groups that no replayed event names have the members they had. */
  ghost predicate UnnamedKeepMembers(before: Grouped, now: Grouped, order: seq<LogEvent>) {
    forall groupId, r | !Named(now, order, groupId) :: MemberOf(now, groupId, r) <==> MemberOf(before, groupId, r)
  }

  lemma UnnamedIsUnlinked(before: Grouped, now: Grouped, order: seq<LogEvent>, groupId: Id)
    requires ReplaysSince(before, now, order) && !Named(now, order, groupId)
    ensures forall l | l in NewLinks(before, now) :: !LinkNames(l, groupId)
  {
    forall l | l in NewLinks(before, now) ensures !LinkNames(l, groupId) {
      assert XanaduLinked(l) in order && !Names(now, XanaduLinked(l), groupId);
    }
  }

  lemma SinceNamesWhatMoved(before: Grouped, commands: seq<Command>, order: seq<LogEvent>)
    requires Sound(before) && History(before) && ReplaysSince(before, Run(before, commands), order)
    ensures UnnamedKeepMembers(before, Run(before, commands), order)
  {
    var now := Run(before, commands);
    forall groupId, r | !Named(now, order, groupId)
      ensures MemberOf(now, groupId, r) <==> MemberOf(before, groupId, r)
    {
      UnnamedIsUnlinked(before, now, order, groupId);
      UnnamedGroupKeepsMembers(before, commands, groupId, r);
    }
  }

  lemma CatchUpFromTables(before: Grouped, now: Grouped, start: LinkGraph, order: seq<LogEvent>)
    requires Sound(now) && History(now) && IsCanonical(start, before)
    requires ReplaysSince(before, now, order) && UnnamedKeepMembers(before, now, order)
    ensures IsCanonical(Rebuild(start, now, order), now)
  {
    forall a, b | Paired(now, a, b) && !Replayed(now, order, now.Row(a).transclusionId.value)
      ensures (a, b) in start && start[(a, b)] == now.Row(a).transclusionId.value
    {
      var groupId := now.Row(a).transclusionId.value;
      NamedLiveIsReplayed(now, order, groupId);
      assert groupId in now.groups && MemberOf(now, groupId, a) && MemberOf(now, groupId, b);
      assert MemberOf(before, groupId, a) && MemberOf(before, groupId, b);
      assert Paired(before, a, b);
    }
    forall a, b | (a, b) in start && !Named(now, order, start[(a, b)])
      ensures Paired(now, a, b) && Some(start[(a, b)]) == now.Row(a).transclusionId
    {
      assert Paired(before, a, b);
      assert MemberOf(before, start[(a, b)], a) && MemberOf(before, start[(a, b)], b);
      assert MemberOf(now, start[(a, b)], a) && MemberOf(now, start[(a, b)], b);
    }
    RebuildIsCanonical(start, now, order);
  }

  /**
   * Catching up from a cursor: onto a graph that was canonical at some earlier point of the run, replaying
   * the events logged since, in any order, with any repetition, with events of before and with text
   * updates in between, gives the canonical cliques of the tables as they are now.
   */
  lemma CatchUpFromCursor(earlier: seq<Command>, since: seq<Command>, start: LinkGraph, order: seq<LogEvent>)
    requires IsCanonical(start, Run(EMPTY_GROUPED, earlier))
    requires ReplaysSince(Run(EMPTY_GROUPED, earlier), Run(Run(EMPTY_GROUPED, earlier), since), order)
    ensures var now := Run(Run(EMPTY_GROUPED, earlier), since); IsCanonical(Rebuild(start, now, order), now)
  {
    EmptyIsSound();
    RunKeepsHistory(EMPTY_GROUPED, earlier);
    CatchUpFromState(Run(EMPTY_GROUPED, earlier), since, start, order);
  }

  lemma CatchUpFromState(before: Grouped, since: seq<Command>, start: LinkGraph, order: seq<LogEvent>)
    requires Sound(before) && History(before) && IsCanonical(start, before)
    requires ReplaysSince(before, Run(before, since), order)
    ensures IsCanonical(Rebuild(start, Run(before, since), order), Run(before, since))
  {
    RunKeepsHistory(before, since);
    SinceNamesWhatMoved(before, since, order);
    CatchUpFromTables(before, Run(before, since), start, order);
  }
}
