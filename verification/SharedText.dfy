/**
 * Union correctness and shared text: the group tables refine connected components of links, every
 * member of which carries one text.
 */
module SharedText {
  import opened Common
  import opened Graphs
  import opened Transclusion

  type Chains = set<(EntityRef, EntityRef)>

  /** The committed links, read in both directions. */
  ghost function Undirected(links: seq<LinkEvent>): Chains
    decreases |links|
  {
    if links == [] then {}
    else
      var last := links[|links| - 1];
      Undirected(links[..|links| - 1]) + {(last.from, last.to)} + {(last.to, last.from)}
  }

  /** A chain of links, of any length, joins `a` and `b`. */
  ghost predicate Connected(links: seq<LinkEvent>, a: EntityRef, b: EntityRef) {
    Reaches(Undirected(links), a, b)
  }

  ghost predicate EverLinked(links: seq<LinkEvent>, r: EntityRef) {
    exists l :: l in links && (l.from == r || l.to == r)
  }

  ghost predicate SameGroup(g: Grouped, a: EntityRef, b: EntityRef)
    requires g.Has(a) && g.Has(b)
  {
    a == b || (g.Row(a).transclusionId.Some? && g.Row(a).transclusionId == g.Row(b).transclusionId)
  }

  predicate CarriesText(row: TextRow, group: GroupRow) {
    row.workspace == group.workspace && row.title == group.title && row.content == group.content
  }

  /** Every member of a group carries that group's text. */
  ghost predicate MembersMatchGroups(g: Grouped) {
    forall r | g.Has(r) && g.Row(r).transclusionId.Some? ::
      var row := g.Row(r);
      row.transclusionId.value in g.groups
      && CarriesText(row, g.groups[row.transclusionId.value])
  }

  ghost predicate IdsAreUsed(g: Grouped) {
    && (forall id | id in g.groups :: id < g.nextId)
    && (forall id | id in g.notes :: id < g.nextId)
    && (forall id | id in g.tasks :: id < g.nextId)
    && (forall l | l in g.links ::
       l.transclusionId < g.nextId && (l.mergedGroupId.Some? ==> l.mergedGroupId.value < g.nextId))
  }

  ghost predicate GroupsAreComponents(g: Grouped) {
    forall a, b | g.Has(a) && g.Has(b) :: SameGroup(g, a, b) <==> Connected(g.links, a, b)
  }

  /** What every run keeps. */
  ghost predicate Sound(g: Grouped) {
    && MembersMatchGroups(g)
    && IdsAreUsed(g)
    && GroupsAreComponents(g)
    && (forall l | l in g.links :: g.Has(l.from) && g.Has(l.to))
    && (forall r | g.Has(r) :: g.Row(r).transclusionId.Some? <==> EverLinked(g.links, r))
  }

  // ---------------------------------------------------------------------------------------------
  // Connectivity
  // ---------------------------------------------------------------------------------------------

  lemma {:induction false} UndirectedIsSymmetric(links: seq<LinkEvent>)
    ensures Reverse(Undirected(links)) == Undirected(links)
    decreases |links|
  {
    if links != [] {
      var rest, last := links[..|links| - 1], links[|links| - 1];
      UndirectedIsSymmetric(rest);
      var edges := Undirected(links);
      forall e: (EntityRef, EntityRef) ensures e in edges ==> (e.1, e.0) in edges {
        if e in Undirected(rest) { assert (e.1, e.0) in Reverse(Undirected(rest)); }
      }
      forall e | e in edges ensures e in Reverse(edges) {
        assert (e.1, e.0) in edges;
      }
    }
  }

  lemma ConnectedIsSymmetric(links: seq<LinkEvent>, a: EntityRef, b: EntityRef)
    requires Connected(links, a, b)
    ensures Connected(links, b, a)
  {
    UndirectedIsSymmetric(links);
    var n: nat :| Walk(Undirected(links), a, b, n);
    WalkReversed(Undirected(links), a, b, n);
  }

  lemma ConnectedToItself(links: seq<LinkEvent>, r: EntityRef)
    ensures Connected(links, r, r)
  {
    ReachesSelf(Undirected(links), r);
  }

  lemma {:induction false} UnlinkedStandsAlone(links: seq<LinkEvent>, r: EntityRef)
    requires !EverLinked(links, r)
    ensures forall e | e in Undirected(links) :: e.0 != r && e.1 != r
    decreases |links|
  {
    if links != [] {
      var rest, last := links[..|links| - 1], links[|links| - 1];
      assert last in links && forall l | l in rest :: l in links;
      UnlinkedStandsAlone(rest, r);
    }
  }

  lemma UnlinkedReachesOnlyItself(links: seq<LinkEvent>, r: EntityRef, other: EntityRef)
    requires !EverLinked(links, r) && r != other
    ensures !Connected(links, r, other) && !Connected(links, other, r)
  {
    UnlinkedStandsAlone(links, r);
    if Connected(links, other, r) { ConnectedIsSymmetric(links, other, r); }
    if Connected(links, r, other) {
      var n: nat :| Walk(Undirected(links), r, other, n);
    }
  }

  /** What one more link connects, and nothing else. */
  lemma ConnectedWithNewLink(links: seq<LinkEvent>, l: LinkEvent, a: EntityRef, b: EntityRef)
    ensures Connected(links + [l], a, b)
       <==> || Connected(links, a, b)
            || (Connected(links, a, l.from) && Connected(links, l.to, b))
            || (Connected(links, a, l.to) && Connected(links, l.from, b))
  {
    var edges := Undirected(links);
    var one := edges + {(l.from, l.to)};
    assert (links + [l])[..|links + [l]| - 1] == links;
    assert Undirected(links + [l]) == one + {(l.to, l.from)};
    ReachesWithNewEdge(one, l.to, l.from, a, b);
    ReachesWithNewEdge(edges, l.from, l.to, a, b);
    ReachesWithNewEdge(edges, l.from, l.to, a, l.to);
    ReachesWithNewEdge(edges, l.from, l.to, l.from, b);
    if Reaches(edges, a, l.to) && Reaches(edges, l.to, b) { ReachesTransitive(edges, a, l.to, b); }
    if Reaches(edges, a, l.from) && Reaches(edges, l.from, b) { ReachesTransitive(edges, a, l.from, b); }
    ReachesSelf(edges, l.to);
    ReachesSelf(edges, l.from);
  }

  // ---------------------------------------------------------------------------------------------
  // Every command keeps the group tables sound
  // ---------------------------------------------------------------------------------------------

  lemma LinkedRows(g: Grouped, workspace: string, from: EntityRef, to: EntityRef, now: Time, r: EntityRef)
    requires Linked(g, workspace, from, to, now).Ok?
    ensures var (next, group) := Linked(g, workspace, from, to, now).value;
            var source := g.Row(from);
            && next.Has(r) == g.Has(r)
            && (g.Has(r) ==>
                  var text := GroupRow(workspace, source.title, source.content, now);
                  next.Row(r) == JoinRow(g.Row(r), r, from, to, group, text))
  {
  }

  /** The rows a link joins are exactly those that shared a group with one of its ends. */
  lemma JoinedAreBothGroups(g: Grouped, workspace: string, from: EntityRef, to: EntityRef, now: Time, r: EntityRef)
    requires Sound(g) && Linked(g, workspace, from, to, now).Ok? && g.Has(r)
    ensures Joins(g.Row(r), r, from, to, Linked(g, workspace, from, to, now).value.1)
            <==> SameGroup(g, r, from) || SameGroup(g, r, to)
  {
  }

  lemma LinkJoinsComponents(g: Grouped, workspace: string, from: EntityRef, to: EntityRef, now: Time, a: EntityRef,
      b: EntityRef)
    requires Sound(g) && Linked(g, workspace, from, to, now).Ok? && g.Has(a) && g.Has(b)
    ensures var next := Linked(g, workspace, from, to, now).value.0;
            && next.Has(a) && next.Has(b)
            && (SameGroup(next, a, b) <==> Connected(next.links, a, b))
  {
    var (next, group) := Linked(g, workspace, from, to, now).value;
    LinkedRows(g, workspace, from, to, now, a);
    LinkedRows(g, workspace, from, to, now, b);
    JoinedAreBothGroups(g, workspace, from, to, now, a);
    JoinedAreBothGroups(g, workspace, from, to, now, b);
    ConnectedWithNewLink(g.links, LinkEvent(from, to, group.canonicalGroupId, group.mergedGroupId), a, b);
    assert SameGroup(g, a, b) <==> Connected(g.links, a, b);
    assert SameGroup(g, a, from) <==> Connected(g.links, a, from);
    assert SameGroup(g, a, to) <==> Connected(g.links, a, to);
    assert SameGroup(g, from, b) <==> Connected(g.links, from, b);
    assert SameGroup(g, to, b) <==> Connected(g.links, to, b);
  }

  /** On the tables of any run, a group that a link makes has an id that nothing ever had. */
  lemma LinkChoosesGroup(g: Grouped, workspace: string, from: EntityRef, to: EntityRef, now: Time)
    requires Sound(g) && Linked(g, workspace, from, to, now).Ok?
    ensures var (next, group) := Linked(g, workspace, from, to, now).value;
            && ChoosesGroup(g, next, from, to, group)
            && (g.Row(from).transclusionId.None? && g.Row(to).transclusionId.None? ==>
                  && group.canonicalGroupId !in g.groups
                  && (forall r | g.Has(r) ::
                        r.id != group.canonicalGroupId && g.Row(r).transclusionId != Some(group.canonicalGroupId))
                  && (forall l | l in g.links ::
                        l.transclusionId != group.canonicalGroupId && l.mergedGroupId != Some(group.canonicalGroupId)))
  {
  }

  lemma LinkKeepsSound(g: Grouped, workspace: string, from: EntityRef, to: EntityRef, now: Time)
    requires Sound(g) && Linked(g, workspace, from, to, now).Ok?
    ensures Sound(Linked(g, workspace, from, to, now).value.0)
  {
    var (next, group) := Linked(g, workspace, from, to, now).value;
    var l := LinkEvent(from, to, group.canonicalGroupId, group.mergedGroupId);
    forall a, b | next.Has(a) && next.Has(b) ensures SameGroup(next, a, b) <==> Connected(next.links, a, b) {
      LinkedRows(g, workspace, from, to, now, a);
      LinkedRows(g, workspace, from, to, now, b);
      LinkJoinsComponents(g, workspace, from, to, now, a, b);
    }
    forall r | next.Has(r)
      ensures next.Row(r).transclusionId.Some? <==> EverLinked(next.links, r)
    {
      LinkedRows(g, workspace, from, to, now, r);
      LinkTouches(g, workspace, from, to, now, r);
    }
    LinkKeepsMembers(g, workspace, from, to, now);
  }

  lemma LinkKeepsMembers(g: Grouped, workspace: string, from: EntityRef, to: EntityRef, now: Time)
    requires Sound(g) && Linked(g, workspace, from, to, now).Ok?
    ensures MembersMatchGroups(Linked(g, workspace, from, to, now).value.0)
  {
    var next := Linked(g, workspace, from, to, now).value.0;
    forall r | next.Has(r) && next.Row(r).transclusionId.Some?
      ensures next.Row(r).transclusionId.value in next.groups
      ensures var row := next.Row(r); CarriesText(row, next.groups[row.transclusionId.value])
    {
      LinkedRows(g, workspace, from, to, now, r);
      JoinedAreBothGroups(g, workspace, from, to, now, r);
    }
  }

  lemma LinkTouches(g: Grouped, workspace: string, from: EntityRef, to: EntityRef, now: Time, r: EntityRef)
    requires Sound(g) && Linked(g, workspace, from, to, now).Ok? && g.Has(r)
    ensures var next := Linked(g, workspace, from, to, now).value.0;
            next.Has(r) && (next.Row(r).transclusionId.Some? <==> EverLinked(next.links, r))
  {
    var (next, group) := Linked(g, workspace, from, to, now).value;
    var l := LinkEvent(from, to, group.canonicalGroupId, group.mergedGroupId);
    LinkedRows(g, workspace, from, to, now, r);
    assert l in next.links && forall k | k in g.links :: k in next.links;
    assert forall k | k in next.links :: k in g.links || k == l;
    assert EverLinked(next.links, r) <==> EverLinked(g.links, r) || r == from || r == to;
  }

  lemma UpdatedRows(g: Grouped, workspace: string, e: EntityRef, title: string, content: string, now: Time,
      r: EntityRef)
    requires Sound(g) && g.Fetch(workspace, e).Ok?
    ensures Updated(g, workspace, e, title, content, now).Ok?
    ensures var next := Updated(g, workspace, e, title, content, now).value;
            && next.Has(r) == g.Has(r)
            && (g.Has(r) && SameGroup(g, e, r) ==>
               next.Row(r) == g.Row(r).(title := title, content := content, updatedAt := now))
            && (g.Has(r) && !SameGroup(g, e, r) ==> next.Row(r) == g.Row(r))
  {
  }

  lemma UpdateKeepsSound(g: Grouped, workspace: string, e: EntityRef, title: string, content: string, now: Time)
    requires Sound(g) && g.Fetch(workspace, e).Ok?
    ensures Updated(g, workspace, e, title, content, now).Ok?
    ensures Sound(Updated(g, workspace, e, title, content, now).value)
  {
    UpdatedRows(g, workspace, e, title, content, now, e);
    var next := Updated(g, workspace, e, title, content, now).value;
    forall a, b | next.Has(a) && next.Has(b) ensures SameGroup(next, a, b) <==> Connected(next.links, a, b) {
      UpdatedRows(g, workspace, e, title, content, now, a);
      UpdatedRows(g, workspace, e, title, content, now, b);
      assert SameGroup(g, a, b) <==> Connected(g.links, a, b);
    }
    forall r ensures next.Has(r) == g.Has(r)
             ensures next.Has(r) ==> (next.Row(r).transclusionId.Some? <==> EverLinked(next.links, r)) {
      UpdatedRows(g, workspace, e, title, content, now, r);
    }
    forall r | next.Has(r) && next.Row(r).transclusionId.Some?
      ensures next.Row(r).transclusionId.value in next.groups
      ensures var row := next.Row(r); CarriesText(row, next.groups[row.transclusionId.value])
    {
      UpdatedRows(g, workspace, e, title, content, now, r);
    }
  }

  lemma CreateKeepsSound(g: Grouped, asTask: bool, workspace: string, title: string, content: string, now: Time)
    requires Sound(g)
    ensures Sound(Created(g, asTask, workspace, title, content, now))
  {
    var next := Created(g, asTask, workspace, title, content, now);
    var e := RefTo(asTask, g.nextId);
    assert !g.Has(e) && !EverLinked(g.links, e);
    assert forall r | g.Has(r) :: next.Has(r) && next.Row(r) == g.Row(r);
    assert forall r | next.Has(r) :: g.Has(r) || r == e;
    assert next.Has(e) && next.Row(e).transclusionId == None;
    forall a, b | next.Has(a) && next.Has(b) ensures SameGroup(next, a, b) <==> Connected(next.links, a, b) {
      if a == b {
        ReachesSelf(Undirected(g.links), a);
      } else if a == e {
        UnlinkedReachesOnlyItself(g.links, e, b);
      } else if b == e {
        UnlinkedReachesOnlyItself(g.links, e, a);
      } else {
        assert SameGroup(g, a, b) <==> Connected(g.links, a, b);
      }
    }
  }

  lemma TouchKeepsSound(g: Grouped, workspace: string, taskId: Id, now: Time)
    requires Sound(g) && Touched(g, workspace, taskId, now).Ok?
    ensures Sound(Touched(g, workspace, taskId, now).value)
  {
    var next := Touched(g, workspace, taskId, now).value;
    assert forall r :: next.Has(r) == g.Has(r);
    assert forall r | g.Has(r) :: next.Row(r) == g.Row(r).(updatedAt := next.Row(r).updatedAt);
    forall a, b | next.Has(a) && next.Has(b) ensures SameGroup(next, a, b) <==> Connected(next.links, a, b) {
      assert SameGroup(next, a, b) == SameGroup(g, a, b);
    }
  }

  // ---------------------------------------------------------------------------------------------
  // The naive model: no groups, only links, and text rewritten along chains of links
  // ---------------------------------------------------------------------------------------------

  datatype NaiveText = NaiveText(workspace: string, title: string, content: string, updatedAt: Time)

  datatype Naive = Naive(texts: map<EntityRef, NaiveText>, edges: Chains, nextId: Id)

  /** Writes one text to everything a chain of links joins to `e`. */
  ghost function Rewrite(n: Naive, e: EntityRef, title: string, content: string, now: Time): Naive {
    n.(texts := map r | r in n.texts ::
         if Reaches(n.edges, e, r) then n.texts[r].(title := title, content := content, updatedAt := now)
           else n.texts[r])
  }

  function NaiveFetch(n: Naive, workspace: string, r: EntityRef): Result<NaiveText, Error> {
    if r.Epic? || r.Memory? then Err(BadRequest)
    else if r !in n.texts || n.texts[r].workspace != workspace then Err(NotFound)
    else Ok(n.texts[r])
  }

  datatype Command =
    | Create(asTask: bool, workspace: string, title: string, content: string, now: Time)
    | Update(workspace: string, entity: EntityRef, title: string, content: string, now: Time)
    | Link(workspace: string, from: EntityRef, to: EntityRef, now: Time)
    | Touch(workspace: string, taskId: Id, now: Time)  // a claim, a release or a completion

  ghost function NaiveStep(n: Naive, c: Command): Result<Naive, Error> {
    match c
    case Create(asTask, ws, title, content, now) =>
      Ok(n.(texts := n.texts[RefTo(asTask, n.nextId) := NaiveText(ws, title, content, now)], nextId := n.nextId + 1))
    case Update(ws, e, title, content, now) =>
      var row := NaiveFetch(n, ws, e);
      if row.Err? then Err(row.error) else Ok(Rewrite(n, e, title, content, now))
    case Link(ws, from, to, now) =>
      var source, target := NaiveFetch(n, ws, from), NaiveFetch(n, ws, to);
      if source.Err? then Err(source.error)
      else if target.Err? then Err(target.error)
      else
        var linked := n.(edges := n.edges + {(from, to)} + {(to, from)}, nextId := n.nextId + 1);
        Ok(Rewrite(linked, from, source.value.title, source.value.content, now))
    case Touch(ws, taskId, now) =>
      var row := NaiveFetch(n, ws, Task(taskId));
      if row.Err? then Err(row.error) else Ok(n.(texts := n.texts[Task(taskId) := row.value.(updatedAt := now)]))
  }

  function Step(g: Grouped, c: Command): Result<Grouped, Error> {
    match c
    case Create(asTask, ws, title, content, now) => Ok(Created(g, asTask, ws, title, content, now))
    case Update(ws, e, title, content, now) => Updated(g, ws, e, title, content, now)
    case Link(ws, from, to, now) =>
      var r := Linked(g, ws, from, to, now);
      if r.Ok? then Ok(r.value.0) else Err(r.error)
    case Touch(ws, taskId, now) => Touched(g, ws, taskId, now)
  }

  predicate SameText(a: TextRow, b: TextRow) {
    a.workspace == b.workspace && a.title == b.title && a.content == b.content
  }

  function Visible(row: TextRow): NaiveText {
    NaiveText(row.workspace, row.title, row.content, row.updatedAt)
  }

  /** The group tables show what the naive model shows. */
  ghost predicate Refines(g: Grouped, n: Naive) {
    && n.edges == Undirected(g.links)
    && n.nextId == g.nextId
    && (forall r :: r in n.texts <==> g.Has(r))
    && (forall r | g.Has(r) :: n.texts[r] == Visible(g.Row(r)))
  }

  /** One command: same outcome, same error, and the refinement is kept. */
  lemma StepRefines(g: Grouped, n: Naive, c: Command)
    requires Sound(g) && Refines(g, n)
    ensures match (Step(g, c), NaiveStep(n, c))
            case (Ok(g'), Ok(n')) => Sound(g') && Refines(g', n')
            case (Err(e), Err(e')) => e == e'
            case _ => false
  {
    match c
    case Create(asTask, ws, title, content, now) => CreateRefines(g, n, asTask, ws, title, content, now);
    case Update(ws, e, title, content, now) =>
      FetchRefines(g, n, ws, e);
      if g.Fetch(ws, e).Ok? { UpdateRefines(g, n, ws, e, title, content, now); }
    case Link(ws, from, to, now) =>
      FetchRefines(g, n, ws, from);
      FetchRefines(g, n, ws, to);
      if Linked(g, ws, from, to, now).Ok? { LinkRefines(g, n, ws, from, to, now); }
    case Touch(ws, taskId, now) =>
      FetchRefines(g, n, ws, Task(taskId));
      if g.Fetch(ws, Task(taskId)).Ok? { TouchRefines(g, n, ws, taskId, now); }
  }

  lemma FetchRefines(g: Grouped, n: Naive, workspace: string, r: EntityRef)
    requires Refines(g, n)
    ensures match (g.Fetch(workspace, r), NaiveFetch(n, workspace, r))
            case (Ok(row), Ok(text)) => text == Visible(row)
            case (Err(e), Err(e')) => e == e'
            case _ => false
  {
  }

  lemma CreateRefines(g: Grouped, n: Naive, asTask: bool, workspace: string, title: string, content: string, now: Time)
    requires Sound(g) && Refines(g, n)
    ensures var next := Created(g, asTask, workspace, title, content, now);
            Sound(next) && Refines(next, NaiveStep(n, Create(asTask, workspace, title, content, now)).value)
  {
    CreateKeepsSound(g, asTask, workspace, title, content, now);
  }

  lemma TouchRefines(g: Grouped, n: Naive, workspace: string, taskId: Id, now: Time)
    requires Sound(g) && Refines(g, n) && g.Fetch(workspace, Task(taskId)).Ok?
    ensures NaiveStep(n, Touch(workspace, taskId, now)).Ok?
    ensures var next := Touched(g, workspace, taskId, now).value;
            Sound(next) && Refines(next, NaiveStep(n, Touch(workspace, taskId, now)).value)
  {
    TouchKeepsSound(g, workspace, taskId, now);
  }

  lemma UpdateRefines(g: Grouped, n: Naive, workspace: string, e: EntityRef, title: string, content: string, now: Time)
    requires Sound(g) && Refines(g, n) && g.Fetch(workspace, e).Ok?
    ensures var r := Updated(g, workspace, e, title, content, now);
            r.Ok? && Sound(r.value) && Refines(r.value, Rewrite(n, e, title, content, now))
  {
    UpdateKeepsSound(g, workspace, e, title, content, now);
    var next, naive := Updated(g, workspace, e, title, content, now).value, Rewrite(n, e, title, content, now);
    forall r ensures next.Has(r) == g.Has(r) && (g.Has(r) ==> naive.texts[r] == Visible(next.Row(r))) {
      UpdatedRows(g, workspace, e, title, content, now, r);
      if g.Has(r) { assert SameGroup(g, e, r) <==> Connected(g.links, e, r); }
    }
  }

  lemma LinkRefines(g: Grouped, n: Naive, workspace: string, from: EntityRef, to: EntityRef, now: Time)
    requires Sound(g) && Refines(g, n) && Linked(g, workspace, from, to, now).Ok?
    ensures NaiveStep(n, Link(workspace, from, to, now)).Ok?
    ensures var next := Linked(g, workspace, from, to, now).value.0;
            Sound(next) && Refines(next, NaiveStep(n, Link(workspace, from, to, now)).value)
  {
    var (next, group) := Linked(g, workspace, from, to, now).value;
    var naive := NaiveStep(n, Link(workspace, from, to, now)).value;
    assert next.links[..|next.links| - 1] == g.links;
    assert Undirected(next.links) == naive.edges;
    forall r ensures next.Has(r) == g.Has(r) && (g.Has(r) ==> naive.texts[r] == Visible(next.Row(r))) {
      LinkShowsText(g, n, workspace, from, to, now, r);
    }
    LinkKeepsSound(g, workspace, from, to, now);
  }

  lemma LinkShowsText(g: Grouped, n: Naive, workspace: string, from: EntityRef, to: EntityRef, now: Time, r: EntityRef)
    requires Sound(g) && Refines(g, n) && Linked(g, workspace, from, to, now).Ok?
    ensures var next := Linked(g, workspace, from, to, now).value.0;
            var naive := NaiveStep(n, Link(workspace, from, to, now));
            && naive.Ok? && next.Has(r) == g.Has(r)
            && (g.Has(r) ==> r in naive.value.texts && naive.value.texts[r] == Visible(next.Row(r)))
  {
    LinkedRows(g, workspace, from, to, now, r);
    if g.Has(r) {
      JoinedAreBothGroups(g, workspace, from, to, now, r);
      LinkJoinsComponents(g, workspace, from, to, now, from, r);
      JoinedShareTheCanonicalGroup(g, workspace, from, to, now, r);
    }
  }

  lemma JoinedShareTheCanonicalGroup(g: Grouped, workspace: string, from: EntityRef, to: EntityRef, now: Time,
      r: EntityRef)
    requires Sound(g) && Linked(g, workspace, from, to, now).Ok? && g.Has(r)
    ensures var (next, group) := Linked(g, workspace, from, to, now).value;
            && next.Has(from) && next.Has(r)
            && (SameGroup(next, from, r) <==> Joins(g.Row(r), r, from, to, group))
  {
    LinkedRows(g, workspace, from, to, now, r);
    LinkedRows(g, workspace, from, to, now, from);
  }

  // ---------------------------------------------------------------------------------------------
  // Whole runs
  // ---------------------------------------------------------------------------------------------

  const EMPTY_GROUPED := Grouped(map[], map[], map[], [], 0)
  const EMPTY_NAIVE := Naive(map[], {}, 0)

  /** A refused command leaves the tables as they were. */
  function Run(g: Grouped, commands: seq<Command>): Grouped
    decreases |commands|
  {
    if commands == [] then g
    else
      var r := Step(g, commands[0]);
      Run(if r.Ok? then r.value else g, commands[1..])
  }

  lemma RunOneMore(g: Grouped, c: Command, next: Grouped, rest: seq<Command>)
    requires Step(g, c) == Ok(next)
    ensures Run(g, [c] + rest) == Run(next, rest)
  {
    assert ([c] + rest)[1..] == rest;
  }

  ghost function NaiveRun(n: Naive, commands: seq<Command>): Naive
    decreases |commands|
  {
    if commands == [] then n
    else
      var r := NaiveStep(n, commands[0]);
      NaiveRun(if r.Ok? then r.value else n, commands[1..])
  }

  lemma {:induction false} RunsRefine(g: Grouped, n: Naive, commands: seq<Command>)
    requires Sound(g) && Refines(g, n)
    ensures Sound(Run(g, commands)) && Refines(Run(g, commands), NaiveRun(n, commands))
    decreases |commands|
  {
    if commands != [] {
      StepRefines(g, n, commands[0]);
      var r, naive := Step(g, commands[0]), NaiveStep(n, commands[0]);
      RunsRefine(if r.Ok? then r.value else g, if naive.Ok? then naive.value else n, commands[1..]);
    }
  }

  lemma EmptyIsSound()
    ensures Sound(EMPTY_GROUPED) && Refines(EMPTY_GROUPED, EMPTY_NAIVE)
  {
  }

  /** After any commands, two distinct text entities share a transclusion id iff a chain of links joins them. */
  lemma UnionCorrectness(commands: seq<Command>, a: EntityRef, b: EntityRef)
    requires var g := Run(EMPTY_GROUPED, commands); g.Has(a) && g.Has(b) && a != b
    ensures var g := Run(EMPTY_GROUPED, commands);
            && (g.Row(a).transclusionId.Some? && g.Row(a).transclusionId == g.Row(b).transclusionId
               <==> Connected(g.links, a, b))
            && (g.Row(a).transclusionId.None? <==> !EverLinked(g.links, a))
            && (Connected(g.links, a, b) ==>
                  && g.Row(a).transclusionId.value in g.groups
                  && SameText(g.Row(a), g.Row(b)))
  {
    EmptyIsSound();
    RunsRefine(EMPTY_GROUPED, EMPTY_NAIVE, commands);
    var g := Run(EMPTY_GROUPED, commands);
    assert SameGroup(g, a, b) <==> Connected(g.links, a, b);
  }

  /**
   * After any commands, a text entity has a transclusion id iff it was ever linked, if only to itself; the
   * group of that id is live, of its workspace, and carries its text.
   */
  lemma GroupedIffLinked(commands: seq<Command>, a: EntityRef)
    requires Run(EMPTY_GROUPED, commands).Has(a)
    ensures var g := Run(EMPTY_GROUPED, commands);
            && (g.Row(a).transclusionId.Some? <==> EverLinked(g.links, a))
            && (g.Row(a).transclusionId.Some? ==>
                  && g.Row(a).transclusionId.value in g.groups
                  && CarriesText(g.Row(a), g.groups[g.Row(a).transclusionId.value]))
  {
    EmptyIsSound();
    RunsRefine(EMPTY_GROUPED, EMPTY_NAIVE, commands);
  }

  /** The group tables simulate the naive model over every run. */
  lemma SharedTextRefinement(commands: seq<Command>)
    ensures Refines(Run(EMPTY_GROUPED, commands), NaiveRun(EMPTY_NAIVE, commands))
  {
    EmptyIsSound();
    RunsRefine(EMPTY_GROUPED, EMPTY_NAIVE, commands);
  }
}
