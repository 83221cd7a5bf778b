/** Xanadu transclusion groups over notes and tasks. */
module Transclusion {
  import opened Common

  datatype EntityRef = Epic(id: Id) | Memory(id: Id) | Note(id: Id) | Task(id: Id)

  /** The columns of `notes` and `tasks` that a group shares; `content` is the body or the details. */
  datatype TextRow = TextRow(workspace: string, title: string, content: string, transclusionId: Option<Id>,
    updatedAt: Time)

  type TextTable = map<Id, TextRow>

  datatype GroupRow = GroupRow(workspace: string, title: string, content: string, updatedAt: Time)

  /** The payload of a `xanadu_linked` event. */
  datatype LinkEvent = LinkEvent(from: EntityRef, to: EntityRef, transclusionId: Id, mergedGroupId: Option<Id>)

  datatype XanaduGroup = XanaduGroup(canonicalGroupId: Id, mergedGroupId: Option<Id>)

  /** The contents of the tables, the log of links and the id supply. */
  datatype Grouped = Grouped(
    notes: TextTable,
    tasks: TextTable,
    groups: map<Id, GroupRow>,
    links: seq<LinkEvent>,
    nextId: Id)
  {
    predicate Has(r: EntityRef) {
      (r.Note? && r.id in notes) || (r.Task? && r.id in tasks)
    }

    function Row(r: EntityRef): TextRow
      requires Has(r)
    {
      if r.Note? then notes[r.id] else tasks[r.id]
    }

    /** `fetch_text_entity_by_ref_tx`: only a note or a task of the workspace qualifies. */
    function Fetch(workspace: string, r: EntityRef): Result<TextRow, Error> {
      if r.Epic? || r.Memory? then Err(BadRequest)
      else if !Has(r) || Row(r).workspace != workspace then Err(NotFound)
      else Ok(Row(r))
    }
  }

  function RefTo(asTask: bool, id: Id): EntityRef {
    if asTask then Task(id) else Note(id)
  }

  function CanonicalGroup(from: TextRow, to: TextRow, unused: Id): Id {
    if from.transclusionId.Some? then from.transclusionId.value
    else if to.transclusionId.Some? then to.transclusionId.value
    else unused
  }

  function MergedGroup(from: TextRow, to: TextRow): Option<Id> {
    if from.transclusionId.Some? && to.transclusionId.Some? && from.transclusionId != to.transclusionId
    then to.transclusionId
    else None
  }

  // ---------------------------------------------------------------------------------------------
  // UPDATE statements on one text table
  // ---------------------------------------------------------------------------------------------

  function MoveRow(row: TextRow, from: Id, to: Id): TextRow {
    if row.transclusionId == Some(from) then row.(transclusionId := Some(to)) else row
  }

  function MoveRows(rows: TextTable, from: Id, to: Id): (moved: TextTable)
    ensures moved.Keys == rows.Keys
  {
    map id | id in rows :: MoveRow(rows[id], from, to)
  }

  function SyncRow(row: TextRow, groupId: Id, group: GroupRow): TextRow {
    if row.transclusionId == Some(groupId)
    then row.(title := group.title, content := group.content, updatedAt := group.updatedAt)
    else row
  }

  function SyncRows(rows: TextTable, groupId: Id, group: GroupRow): (synced: TextTable)
    ensures synced.Keys == rows.Keys
  {
    map id | id in rows :: SyncRow(rows[id], groupId, group)
  }

  function SetRow(row: TextRow, self: EntityRef, r: EntityRef, groupId: Id): TextRow {
    if self == r then row.(transclusionId := Some(groupId)) else row
  }

  /** `UPDATE ... SET transclusion_id WHERE note_id = r` touches the table only when `r` names one of its rows. */
  function SetRows(rows: TextTable, asTask: bool, r: EntityRef, groupId: Id): (marked: TextTable)
    ensures marked.Keys == rows.Keys
  {
    map id | id in rows :: SetRow(rows[id], RefTo(asTask, id), r, groupId)
  }

  // ---------------------------------------------------------------------------------------------
  // What each command does to the tables, in one step
  // ---------------------------------------------------------------------------------------------

  /** A link puts both ends, and every member of both ends' groups, into the canonical group. */
  predicate Joins(row: TextRow, self: EntityRef, from: EntityRef, to: EntityRef, group: XanaduGroup) {
    || self == from || self == to
    || row.transclusionId == Some(group.canonicalGroupId)
    || (group.mergedGroupId.Some? && row.transclusionId == group.mergedGroupId)
  }

  function JoinRow(row: TextRow, self: EntityRef, from: EntityRef, to: EntityRef, group: XanaduGroup,
      text: GroupRow): TextRow {
    if Joins(row, self, from, to, group)
    then TextRow(row.workspace, text.title, text.content, Some(group.canonicalGroupId), text.updatedAt)
    else row
  }

  function JoinRows(rows: TextTable, asTask: bool, from: EntityRef, to: EntityRef, group: XanaduGroup,
      text: GroupRow): (joined: TextTable)
    ensures joined.Keys == rows.Keys
  {
    map id | id in rows :: JoinRow(rows[id], RefTo(asTask, id), from, to, group, text)
  }

  function Linked(g: Grouped, workspace: string, from: EntityRef, to: EntityRef,
      now: Time): Result<(Grouped, XanaduGroup), Error> {
    var source, target := g.Fetch(workspace, from), g.Fetch(workspace, to);
    if source.Err? then Err(source.error)
    else if target.Err? then Err(target.error)
    else
      var group := XanaduGroup(CanonicalGroup(source.value, target.value, g.nextId),
        MergedGroup(source.value, target.value));
      var text := GroupRow(workspace, source.value.title, source.value.content, now);
      Ok((Grouped(
            JoinRows(g.notes, false, from, to, group, text),
            JoinRows(g.tasks, true, from, to, group, text),
            (if group.mergedGroupId.Some? then g.groups - {group.mergedGroupId.value}
              else g.groups)[group.canonicalGroupId := text],
            g.links + [LinkEvent(from, to, group.canonicalGroupId, group.mergedGroupId)],
            g.nextId + 1),
          group))
  }

  /** A text update rewrites the entity alone, or its group and every member. */
  function Updated(g: Grouped, workspace: string, e: EntityRef, title: string, content: string,
      now: Time): Result<Grouped, Error> {
    var row := g.Fetch(workspace, e);
    if row.Err? then Err(row.error)
    else
      match row.value.transclusionId
      case Some(groupId) =>
        if groupId !in g.groups then Err(NotFound)
        else
          var text := GroupRow(workspace, title, content, now);
          Ok(g.(notes := SyncRows(g.notes, groupId, text),
                tasks := SyncRows(g.tasks, groupId, text),
                groups := g.groups[groupId := text]))
      case None =>
        var changed := row.value.(title := title, content := content, updatedAt := now);
        Ok(if e.Note? then g.(notes := g.notes[e.id := changed]) else g.(tasks := g.tasks[e.id := changed]))
  }

  function Created(g: Grouped, asTask: bool, workspace: string, title: string, content: string, now: Time): Grouped {
    var row := TextRow(workspace, title, content, None, now);
    if asTask then g.(tasks := g.tasks[g.nextId := row], nextId := g.nextId + 1)
    else g.(notes := g.notes[g.nextId := row], nextId := g.nextId + 1)
  }

  /** Claims, releases and completions move `updated_at` of the task alone. */
  function Touched(g: Grouped, workspace: string, taskId: Id, now: Time): Result<Grouped, Error> {
    var row := g.Fetch(workspace, Task(taskId));
    if row.Err? then Err(row.error)
    else Ok(g.(tasks := g.tasks[taskId := row.value.(updatedAt := now)]))
  }

  /** The UPDATE statements of a link, in the order the code runs them, on one row. */
  function LinkRow(row: TextRow, self: EntityRef, from: EntityRef, to: EntityRef, group: XanaduGroup,
      text: GroupRow): TextRow {
    var canonical := group.canonicalGroupId;
    var moved := if group.mergedGroupId.Some? then MoveRow(row, group.mergedGroupId.value, canonical) else row;
    SyncRow(SetRow(SetRow(moved, self, from, canonical), self, to, canonical), canonical, text)
  }

  /** Together they amount to one join. */
  lemma LinkRowJoins(row: TextRow, self: EntityRef, from: EntityRef, to: EntityRef, group: XanaduGroup, text: GroupRow)
    ensures LinkRow(row, self, from, to, group, text) == JoinRow(row, self, from, to, group, text)
  {
  }

  /** The UPDATE statements of a link on one table. */
  function LinkRows(rows: TextTable, asTask: bool, from: EntityRef, to: EntityRef, group: XanaduGroup,
      text: GroupRow): (result: TextTable)
    ensures result.Keys == rows.Keys
  {
    var canonical := group.canonicalGroupId;
    var moved := if group.mergedGroupId.Some? then MoveRows(rows, group.mergedGroupId.value, canonical) else rows;
    SyncRows(SetRows(SetRows(moved, asTask, from, canonical), asTask, to, canonical), canonical, text)
  }

  lemma LinkRowsAt(rows: TextTable, asTask: bool, from: EntityRef, to: EntityRef, group: XanaduGroup,
      text: GroupRow, id: Id)
    requires id in rows
    ensures LinkRows(rows, asTask, from, to, group, text)[id]
            == JoinRow(rows[id], RefTo(asTask, id), from, to, group, text)
  {
    LinkRowJoins(rows[id], RefTo(asTask, id), from, to, group, text);
  }

  lemma LinkStatementsJoin(rows: TextTable, asTask: bool, from: EntityRef, to: EntityRef, group: XanaduGroup,
      text: GroupRow, result: TextTable)
    requires result == LinkRows(rows, asTask, from, to, group, text)
    ensures result == JoinRows(rows, asTask, from, to, group, text)
  {
    var joined := JoinRows(rows, asTask, from, to, group, text);
    forall id | id in rows ensures result[id] == joined[id] {
      LinkRowsAt(rows, asTask, from, to, group, text, id);
    }
    SameTables(result, joined);
  }

  lemma SameTables(a: TextTable, b: TextTable)
    requires a.Keys == b.Keys && forall id | id in a :: a[id] == b[id]
    ensures a == b
  {
  }

  /**
   * Which group survives a link: that of the source if it has one, else that of the target, else a new one.
   * Both ends are in it afterwards, and the target's old group is merged if both had one and they differ.
   */
  ghost predicate ChoosesGroup(before: Grouped, after: Grouped, from: EntityRef, to: EntityRef, group: XanaduGroup) {
    && before.Has(from) && before.Has(to) && after.Has(from) && after.Has(to)
    && var source, target := before.Row(from).transclusionId, before.Row(to).transclusionId;
    && (source.Some? ==> after.Row(from).transclusionId == source)
    && (source.None? && target.Some? ==> after.Row(to).transclusionId == target)
    && (source.None? && target.None? ==> after.Row(from).transclusionId == Some(before.nextId))
    && after.Row(from).transclusionId == Some(group.canonicalGroupId)
    && after.Row(to).transclusionId == Some(group.canonicalGroupId)
    && group.canonicalGroupId in after.groups
    && (group.mergedGroupId.Some? <==> source.Some? && target.Some? && source != target)
    && (group.mergedGroupId.Some? ==> group.mergedGroupId == target && group.mergedGroupId.value !in after.groups)
  }

  class TransclusionStore {
    var notes: TextTable
    var tasks: TextTable
    var groups: map<Id, GroupRow>
    var links: seq<LinkEvent>
    /** The supply of fresh UUIDs. */
    var nextId: Id

    ghost function View(): Grouped
      reads this
    {
      Grouped(notes, tasks, groups, links, nextId)
    }

    constructor ()
      ensures View() == Grouped(map[], map[], map[], [], 0)
    {
      notes, tasks, groups, links, nextId := map[], map[], map[], [], 0;
    }

    method FetchTextEntity(workspace: string, r: EntityRef) returns (row: Result<TextRow, Error>)
      ensures row == View().Fetch(workspace, r)
    {
      match r
      case Epic(_) => return Err(BadRequest);
      case Memory(_) => return Err(BadRequest);
      case Note(id) =>
        if id in notes && notes[id].workspace == workspace { return Ok(notes[id]); }
        return Err(NotFound);
      case Task(id) =>
        if id in tasks && tasks[id].workspace == workspace { return Ok(tasks[id]); }
        return Err(NotFound);
    }

    method UpdateTransclusionGroup(groupId: Id, workspace: string, title: string, content: string, now: Time)
      modifies this`groups
      ensures groups == if groupId in old(groups)
              then old(groups)[groupId := GroupRow(workspace, title, content, now)] else old(groups)
    {
      if groupId in groups {
        groups := groups[groupId := GroupRow(workspace, title, content, now)];
      }
    }

    method SyncTransclusionMembers(groupId: Id) returns (r: Result<(), Error>)
      modifies this`notes, this`tasks
      ensures r == if groupId in groups then Ok(()) else Err(NotFound)
      ensures r.Err? ==> notes == old(notes) && tasks == old(tasks)
      ensures r.Ok? ==>
                && notes == SyncRows(old(notes), groupId, groups[groupId])
                && tasks == SyncRows(old(tasks), groupId, groups[groupId])
    {
      if groupId !in groups { return Err(NotFound); }
      notes := SyncRows(notes, groupId, groups[groupId]);
      tasks := SyncRows(tasks, groupId, groups[groupId]);
      r := Ok(());
    }

    method MoveGroupMembers(from: Id, to: Id)
      modifies this`notes, this`tasks
      ensures notes == MoveRows(old(notes), from, to) && tasks == MoveRows(old(tasks), from, to)
    {
      notes := MoveRows(notes, from, to);
      tasks := MoveRows(tasks, from, to);
    }

    method SetEntityTransclusion(r: EntityRef, groupId: Id)
      modifies this`notes, this`tasks
      ensures notes == SetRows(old(notes), false, r, groupId) && tasks == SetRows(old(tasks), true, r, groupId)
    {
      match r
      case Note(id) => if id in notes { notes := notes[id := notes[id].(transclusionId := Some(groupId))]; }
      case Task(id) => if id in tasks { tasks := tasks[id := tasks[id].(transclusionId := Some(groupId))]; }
      case _ =>
    }

    method UpsertXanaduGroup(workspace: string, from: TextRow, group: XanaduGroup, now: Time)
      requires group.mergedGroupId != Some(group.canonicalGroupId)
      modifies this`notes, this`tasks, this`groups
      ensures groups == (if group.mergedGroupId.Some? then old(groups) - {group.mergedGroupId.value} else old(groups))
                        [group.canonicalGroupId := GroupRow(workspace, from.title, from.content, now)]
      ensures notes == if group.mergedGroupId.Some?
              then MoveRows(old(notes), group.mergedGroupId.value, group.canonicalGroupId) else old(notes)
      ensures tasks == if group.mergedGroupId.Some?
              then MoveRows(old(tasks), group.mergedGroupId.value, group.canonicalGroupId) else old(tasks)
    {
      var canonical := group.canonicalGroupId;
      if canonical in groups {
        UpdateTransclusionGroup(canonical, workspace, from.title, from.content, now);
      } else {
        groups := groups[canonical := GroupRow(workspace, from.title, from.content, now)];
      }
      if group.mergedGroupId.Some? {
        MoveGroupMembers(group.mergedGroupId.value, canonical);
        groups := groups - {group.mergedGroupId.value};
      }
    }

    /** The writes of `prepare_xanadu_group`, once both ends are read. */
    method JoinGroups(workspace: string, source: TextRow, from: EntityRef, to: EntityRef, group: XanaduGroup, now: Time)
      requires group.mergedGroupId != Some(group.canonicalGroupId)
      modifies this`notes, this`tasks, this`groups
      ensures var text := GroupRow(workspace, source.title, source.content, now);
              && notes == JoinRows(old(notes), false, from, to, group, text)
              && tasks == JoinRows(old(tasks), true, from, to, group, text)
              && groups == (if group.mergedGroupId.Some? then old(groups) - {group.mergedGroupId.value}
                 else old(groups))
                           [group.canonicalGroupId := text]
    {
      UpsertXanaduGroup(workspace, source, group, now);
      SetEntityTransclusion(from, group.canonicalGroupId);
      SetEntityTransclusion(to, group.canonicalGroupId);
      var synced := SyncTransclusionMembers(group.canonicalGroupId);
      ghost var text := GroupRow(workspace, source.title, source.content, now);
      LinkStatementsJoin(old(notes), false, from, to, group, text, notes);
      LinkStatementsJoin(old(tasks), true, from, to, group, text, tasks);
    }

    /** `prepare_xanadu_group` and the link row of `persist_xanadu_link`, one transaction. */
    method AddXanaduLink(workspace: string, from: EntityRef, to: EntityRef,
        now: Time) returns (r: Result<XanaduGroup, Error>)
      modifies this
      ensures match Linked(old(View()), workspace, from, to, now)
              case Err(e) => r == Err(e) && View() == old(View())
              case Ok((next, group)) => r == Ok(group) && View() == next
      ensures r.Ok? ==>
                && ChoosesGroup(old(View()), View(), from, to, r.value)
                && groups[r.value.canonicalGroupId].updatedAt == now
                && links == old(links) + [LinkEvent(from, to, r.value.canonicalGroupId, r.value.mergedGroupId)]
    {
      var source := FetchTextEntity(workspace, from);
      if source.Err? { return Err(source.error); }
      var target := FetchTextEntity(workspace, to);
      if target.Err? { return Err(target.error); }
      var group := XanaduGroup(CanonicalGroup(source.value, target.value, nextId),
        MergedGroup(source.value, target.value));
      nextId := nextId + 1;
      JoinGroups(workspace, source.value, from, to, group, now);
      links := links + [LinkEvent(from, to, group.canonicalGroupId, group.mergedGroupId)];
      r := Ok(group);
    }

    /** `update_note`, and the text columns of `update_task`. */
    method UpdateText(workspace: string, e: EntityRef, title: string, content: string,
        now: Time) returns (r: Result<Option<Id>, Error>)
      modifies this
      ensures match Updated(old(View()), workspace, e, title, content, now)
              case Err(error) => r == Err(error) && View() == old(View())
              case Ok(next) => r == Ok(old(View()).Row(e).transclusionId) && View() == next
    {
      var row := FetchTextEntity(workspace, e);
      if row.Err? { return Err(row.error); }
      if row.value.transclusionId.Some? {
        var groupId := row.value.transclusionId.value;
        UpdateTransclusionGroup(groupId, workspace, title, content, now);
        var synced := SyncTransclusionMembers(groupId);
        if synced.Err? { return Err(synced.error); }
      } else {
        var changed := row.value.(title := title, content := content, updatedAt := now);
        if e.Note? { notes := notes[e.id := changed]; } else { tasks := tasks[e.id := changed]; }
      }
      r := Ok(row.value.transclusionId);
    }

    /** `create_note` and `offer_task`: a new text entity that belongs to no group. */
    method CreateText(asTask: bool, workspace: string, title: string, content: string, now: Time) returns (e: EntityRef)
      modifies this
      ensures e == RefTo(asTask, old(nextId))
      ensures View() == Created(old(View()), asTask, workspace, title, content, now)
    {
      var row := TextRow(workspace, title, content, None, now);
      e := RefTo(asTask, nextId);
      if asTask { tasks := tasks[nextId := row]; } else { notes := notes[nextId := row]; }
      nextId := nextId + 1;
    }
  }
}
