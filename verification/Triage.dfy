/** What triage reads and asks for: the server's answers, the metadata patch, and the requests one task needs. */
module Triage {
  import opened Common
  import opened Normalise
  import opened Tables
  import opened Transclusion
  import opened Uuids
  import Claims
  import I = Idempotency

  datatype Metadata = Metadata(labels: seq<string>, owner: Option<string>, priority: string)

  /** The columns of `tasks` beside its text. */
  datatype Columns = Columns(status: Status, epicId: Option<Id>, metadata: Metadata)

  datatype Server = Server(
    clock: Time,
    text: Grouped,
    columns: map<Id, Columns>,
    epics: map<Id, string>,
    supported: set<(string, string)>,
    claims: seq<Claims.ClaimRow>,
    receipts: map<I.Key, I.ReceiptRow<Request, ()>>,
    nextReceipt: Id)

  /** A task as the server shows it. */
  datatype Record = Record(title: string, details: string, status: Status, epicId: Option<Id>, metadata: Metadata)

  datatype Patch = Patch(labels: seq<string>, clearLabels: bool, owner: Option<string>, clearOwner: bool,
    priority: Option<string>)

  /** What a triage is asked for; `key` is its root idempotency key. */
  datatype Args = Args(workspace: string, actor: string, taskIds: seq<Id>, epicId: Option<Id>, complete: bool,
    patch: Patch, key: Option<string>)

  /** A request, with the idempotency key in its header. */
  datatype Request =
    | UpdateTask(id: Id, title: string, details: string, epicId: Option<Id>, metadata: Metadata, key: Option<string>)
    | CompleteTask(id: Id, key: Option<string>)

  // ---------------------------------------------------------------------------------------------
  // The server
  // ---------------------------------------------------------------------------------------------

  /** `TaskPriority::from_lossy` */
  function PriorityFromRow(priority: string): string {
    if Identifier(priority) == [] then "invalid" else Identifier(priority)
  }

  /** A stored priority reads as its identifier, and as `invalid` when it has no word. */
  lemma LossyPriority(priority: string)
    ensures PriorityFromRow(priority) == if Words(priority) == [] then "invalid" else Lower(Join(Words(priority)))
    ensures PriorityFromRow(priority) != []
  {
    WordsAreWords(priority);
    if Words(priority) != [] { JoinEnds(Words(priority)); }
  }

  function MetadataFromRow(m: Metadata): Metadata {
    Metadata(NormalLabels(m.labels), Owner(m.owner), PriorityFromRow(m.priority))
  }

  /** What an update stores of the metadata it was sent. */
  function Stored(m: Metadata): Metadata {
    Metadata(NormalLabels(m.labels), Owner(m.owner), m.priority)
  }

  predicate Exists(s: Server, id: Id) {
    id in s.columns && id in s.text.tasks
  }

  function FetchTask(s: Server, id: Id): Result<Record, Error> {
    if !Exists(s, id) then Err(NotFound)
    else
      var row, columns := s.text.tasks[id], s.columns[id];
      Ok(Record(row.title, row.content, columns.status, columns.epicId, MetadataFromRow(columns.metadata)))
  }

  /** The body of `update_task`. */
  function HandleUpdate(s: Server, workspace: string, q: Request): Result<Server, Error>
    requires q.UpdateTask?
  {
    var text := Updated(s.text, workspace, Task(q.id), q.title, q.details, s.clock);
    if text.Err? then Err(text.error)
    else if !Exists(s, q.id) then Err(NotFound)
    else if q.epicId.Some? && (q.epicId.value !in s.epics || s.epics[q.epicId.value] != workspace) then Err(NotFound)
    else
      var columns := s.columns[q.id];
      var epicId := if q.epicId.Some? then q.epicId else columns.epicId;
      Ok(s.(text := text.value, columns := s.columns[q.id := Columns(columns.status, epicId, Stored(q.metadata))]))
  }

  /** The body of `complete_task`. */
  function HandleComplete(s: Server, workspace: string, actor: string, id: Id): Result<Server, Error> {
    var claim := Claims.FetchActiveClaim(s.claims, id, s.clock);
    var text := Touched(s.text, workspace, id, s.clock);
    if claim.Some? && claim.value.actor != actor then Err(Conflict)
    else if text.Err? then Err(text.error)
    else if !Exists(s, id) then Err(NotFound)
    else Ok(s.(text := text.value,
               columns := s.columns[id := s.columns[id].(status := Completed)],
               claims := Claims.ReleaseActive(s.claims, id, s.clock)))
  }

  function Perform(s: Server, t: Args, q: Request): Result<Server, Error> {
    match q
    case UpdateTask(_, _, _, _, _, _) => HandleUpdate(s, t.workspace, q)
    case CompleteTask(id, _) => HandleComplete(s, t.workspace, t.actor, id)
  }

  /** The payload a receipt keeps: the request body, its labels and owner in normal form. */
  function Payload(q: Request): Request {
    match q
    case UpdateTask(_, _, _, _, _, _) => q.(metadata := Stored(q.metadata), key := None)
    case CompleteTask(_, _) => q.(key := None)
  }

  function CommandOf(s: Server, t: Args, q: Request): I.Request<Request> {
    var kind := if q.UpdateTask? then "update_task" else "complete_task";
    I.Request(t.workspace, t.actor, kind, q.key, Payload(q), s.clock)
  }

  function BodyOf(t: Args, q: Request): I.Body<Server, ()> {
    s =>
      match Perform(s, t, q)
      case Ok(next) => Ok((next, ()))
      case Err(e) => Err(e)
  }

  /** The keyed command: the priority is checked before its receipt, everything else inside its transaction. */
  function Handle(s: Server, t: Args, q: Request): Result<Server, Error> {
    if q.UpdateTask? && (t.workspace, q.metadata.priority) !in s.supported then Err(BadRequest)
    else
      var (after, outcome) := I.Handle(I.State(s, s.receipts, s.nextReceipt), CommandOf(s, t, q), BodyOf(t, q));
      match outcome
      case Refused(e) => Err(e)
      case Executed(_) => Ok(after.world.(receipts := after.receipts, nextReceipt := after.nextId))
      case Replayed(_) => Ok(after.world.(receipts := after.receipts, nextReceipt := after.nextId))
  }

  /** The key under which the request's receipt is stored, if it has a valid one. */
  function ReceiptKey(t: Args, q: Request): Option<I.Key> {
    if q.key.None? || I.NormalizeKey(q.key.value).Err? then None
    else Some(I.Key(t.workspace, t.actor, if q.UpdateTask? then "update_task" else "complete_task",
      I.NormalizeKey(q.key.value).value))
  }

  /** A receipt is stored under the request's key. */
  predicate FindsReceipt(s: Server, t: Args, q: Request) {
    ReceiptKey(t, q).Some? && ReceiptKey(t, q).value in s.receipts
  }

  /** Two requests of one caller share a receipt exactly when kind and key without outer blanks agree. */
  lemma ReceiptsAreShared(t: Args, q: Request, r: Request)
    requires ReceiptKey(t, q).Some? && ReceiptKey(t, r).Some?
    ensures ReceiptKey(t, q) == ReceiptKey(t, r)
       <==> q.UpdateTask? == r.UpdateTask? && Trim(q.key.value) == Trim(r.key.value)
  {
  }

  ghost predicate SameButReceipts(a: Server, b: Server) {
    a == b.(receipts := a.receipts, nextReceipt := a.nextReceipt)
  }

  /**
   * A request that succeeds is carried out, unless its key has a receipt: then it changes nothing but that
   * receipt.
   */
  lemma HandleExecutesOrReplays(s: Server, t: Args, q: Request)
    requires Handle(s, t, q).Ok?
    ensures var next := Handle(s, t, q).value;
            if FindsReceipt(s, t, q) then SameButReceipts(next, s)
            else Perform(s, t, q).Ok? && SameButReceipts(next, Perform(s, t, q).value)
  {
  }

  /** Without a key a request is simply carried out. */
  lemma UnkeyedIsPerformed(s: Server, t: Args, q: Request)
    requires q.key.None?
    ensures Handle(s, t, q)
         == if q.UpdateTask? && (t.workspace, q.metadata.priority) !in s.supported then Err(BadRequest)
            else Perform(s, t, q)
  {
    PerformKeepsReceipts(s, t, q);
  }

  lemma PerformKeepsReceipts(s: Server, t: Args, q: Request)
    ensures Perform(s, t, q).Ok? ==>
              Perform(s, t, q).value.receipts == s.receipts && Perform(s, t, q).value.nextReceipt == s.nextReceipt
  {
  }

  /** Receipts stay, and the one receipt that a request may add or find is for this very request. */
  lemma HandleKeepsReceipts(s: Server, t: Args, q: Request)
    requires Handle(s, t, q).Ok?
    ensures var next := Handle(s, t, q).value;
            && (forall k | k in s.receipts :: k in next.receipts && next.receipts[k].payload == s.receipts[k].payload)
            && (forall k | k in next.receipts && k !in s.receipts ::
                  ReceiptKey(t, q) == Some(k) && next.receipts[k].payload.id == q.id)
    ensures FindsReceipt(s, t, q) ==> s.receipts[ReceiptKey(t, q).value].payload == Payload(q)
  {
    I.OneCallAddsItsReceipt(I.State(s, s.receipts, s.nextReceipt), CommandOf(s, t, q), BodyOf(t, q));
    ReceiptKeyIsItsKey(s, t, q);
  }

  lemma ReceiptKeyIsItsKey(s: Server, t: Args, q: Request)
    ensures forall k :: ReceiptKey(t, q) == Some(k) <==> I.KeyOf(CommandOf(s, t, q)) == Ok(Some(k))
  {
  }

  /**
   * An update that is carried out never touches the status, keeps the epic unless it is sent one, and stores
   * what reads back in normal form.
   */
  lemma UpdateKeepsWhatItIsNotSent(s: Server, t: Args, q: Request)
    requires q.UpdateTask? && Perform(s, t, q).Ok?
    ensures var before, after := s.columns[q.id], Perform(s, t, q).value.columns[q.id];
            && after.status == before.status
            && (q.epicId.None? ==> after.epicId == before.epicId)
            && (q.epicId.Some? ==>
               after.epicId == q.epicId && q.epicId.value in s.epics && s.epics[q.epicId.value] == t.workspace)
            && MetadataFromRow(after.metadata).labels == after.metadata.labels
            && MetadataFromRow(after.metadata).owner == after.metadata.owner
            && IsNormalList(Label, q.metadata.labels, after.metadata.labels)
            && (q.metadata.owner.None? ==> after.metadata.owner == None)
            && (q.metadata.owner.Some? ==> NamesOwner(q.metadata.owner.value, after.metadata.owner))
            && after.metadata.priority == q.metadata.priority
  {
    LabelsTwice(q.metadata.labels);
    OwnerTwice(q.metadata.owner);
    NormalLabelsAreTheNormalList(q.metadata.labels, NormalLabels(q.metadata.labels));
    if q.metadata.owner.Some? { OwnerIsTheNamedOne(q.metadata.owner.value, Owner(q.metadata.owner)); }
  }

  /** An update is carried out for a task of the workspace with a live group, if any, and an epic of it, if any. */
  lemma UpdateIsCarriedOutIff(s: Server, t: Args, q: Request)
    requires q.UpdateTask?
    ensures Perform(s, t, q).Ok?
       <==> && q.id in s.columns && q.id in s.text.tasks && s.text.tasks[q.id].workspace == t.workspace
            && (s.text.tasks[q.id].transclusionId.Some? ==> s.text.tasks[q.id].transclusionId.value in s.text.groups)
            && (q.epicId.Some? ==> q.epicId.value in s.epics && s.epics[q.epicId.value] == t.workspace)
    ensures Perform(s, t, q).Err? ==> Perform(s, t, q).error == NotFound
  {
  }

  /** Two requests have one payload exactly when they ask the same, up to blanks and order in labels and owner. */
  lemma PayloadsAgree(q: Request, r: Request)
    ensures Payload(q) == Payload(r)
       <==> && q.UpdateTask? == r.UpdateTask? && q.id == r.id
            && (q.UpdateTask? ==>
                  && q.title == r.title && q.details == r.details && q.epicId == r.epicId
                  && q.metadata.priority == r.metadata.priority
                  && NormalLabels(q.metadata.labels) == NormalLabels(r.metadata.labels)
                  && Owner(q.metadata.owner) == Owner(r.metadata.owner))
  {
  }

  /** The board of claims that shows the same tasks, statuses, times and claims as the server. */
  ghost predicate SameBoard(s: Server, b: Claims.Board) {
    && b.claims == s.claims
    && (forall id :: id in b.catalog.tasks <==> Exists(s, id))
    && (forall id | Exists(s, id) ::
          && b.catalog.tasks[id].workspace == s.text.tasks[id].workspace
          && b.catalog.tasks[id].status == s.columns[id].status
          && b.catalog.tasks[id].updatedAt == s.text.tasks[id].updatedAt)
  }

  /** Completion here is completion there: same refusals, and the same board afterwards. */
  lemma CompletionIsThatOfClaims(s: Server, b: Claims.Board, t: Args, q: Request)
    requires SameBoard(s, b) && s.columns.Keys == s.text.tasks.Keys && q.CompleteTask?
    ensures match (Perform(s, t, q), Claims.CompleteTask(b, t.workspace, t.actor, q.id, s.clock))
            case (Ok(next), Ok(board)) => SameBoard(next, board)
            case (Err(e), Err(e')) => e == e'
            case _ => false
  {
  }

  // ---------------------------------------------------------------------------------------------
  // The patch
  // ---------------------------------------------------------------------------------------------

  function ParsePriority(input: string): Result<string, Error> {
    if Identifier(input) == [] then Err(BadRequest) else Ok(Identifier(input))
  }

  predicate PriorityParses(p: Patch) {
    p.priority.Some? ==> ParsePriority(p.priority.value).Ok?
  }

  function ApplyMetadataPatch(current: Metadata, p: Patch): Result<Metadata, Error> {
    var labels := if p.clearLabels then [] else if p.labels == [] then current.labels else NormalLabels(p.labels);
    var owner := if p.clearOwner then None else if p.owner.Some? then Owner(p.owner) else current.owner;
    if p.priority.None? then Ok(Metadata(labels, owner, current.priority))
    else
      var priority := ParsePriority(p.priority.value);
      if priority.Err? then Err(priority.error) else Ok(Metadata(labels, owner, priority.value))
  }

  /** What a patch makes of metadata, option by option: what it names is set, and what it does not name stays. */
  ghost predicate IsPatched(current: Metadata, p: Patch, next: Metadata) {
    && (if p.clearLabels then next.labels == []
        else if p.labels != [] then IsNormalList(Label, p.labels, next.labels) else next.labels == current.labels)
    && (if p.clearOwner then next.owner == None
        else if p.owner.Some? then NamesOwner(p.owner.value, next.owner) else next.owner == current.owner)
    && next.priority == if p.priority.Some? then Identifier(p.priority.value) else current.priority
  }

  /** A patch is refused exactly for a priority without a name. */
  lemma PatchOptions(current: Metadata, p: Patch, next: Metadata)
    ensures ApplyMetadataPatch(current, p) == Ok(next)
       <==> (p.priority.Some? ==> Identifier(p.priority.value) != []) && IsPatched(current, p, next)
    ensures ApplyMetadataPatch(current, p).Err? ==> ApplyMetadataPatch(current, p) == Err(BadRequest)
  {
    NormalLabelsAreTheNormalList(p.labels, next.labels);
    if p.owner.Some? { OwnerIsTheNamedOne(p.owner.value, next.owner); }
  }

  predicate HasChanges(t: Args) {
    t.complete || t.epicId.Some? || t.patch.priority.Some? || t.patch.clearOwner || t.patch.owner.Some?
      || t.patch.clearLabels || t.patch.labels != []
  }

  /** A triage without changes would ask nothing of any task, and one with changes asks something of some task. */
  lemma ChangesAskSomething(t: Args)
    requires PriorityParses(t.patch)
    ensures HasChanges(t) <==> exists record: Record :: AsksOf(t, record)
  {
    var labels := if t.patch.clearLabels || NormalLabels(t.patch.labels) == [] then ["label"] else [];
    var owner := if t.patch.clearOwner || Owner(t.patch.owner) == None then Some("owner") else None;
    var priority := if t.patch.priority.Some? then ParsePriority(t.patch.priority.value).value + "!" else "low";
    var epicId := if t.epicId == Some(0) then Some(1) else Some(0);
    assert HasChanges(t) ==> AsksOf(t, Record("", "", Open, epicId, Metadata(labels, owner, priority)));
  }

  ghost predicate AsksOf(t: Args, record: Record) {
    var next := ApplyMetadataPatch(record.metadata, t.patch);
    next.Ok? && (NeedsUpdate(t, record, next.value) || NeedsCompletion(t, record))
  }

  predicate NeedsUpdate(t: Args, record: Record, next: Metadata) {
    (t.epicId.Some? && record.epicId != t.epicId) || record.metadata != next
  }

  predicate NeedsCompletion(t: Args, record: Record) {
    t.complete && record.status != Completed
  }

  /** The key a triage gives to a request of one task: its root key, what the request is for, and the task. */
  function ChildKey(t: Args, purpose: string, id: Id): Option<string> {
    if t.key.None? then None else Some(t.key.value + ":" + purpose + ":" + UuidText(id))
  }

  const UPDATE_EPIC := "triage-update-epic"
  const UPDATE_META := "triage-update-meta"
  const COMPLETE := "triage-complete"

  /** The update one task needs, if any: its text is sent back as it was read. */
  function WantedUpdate(t: Args, id: Id, record: Record, next: Metadata): seq<Request> {
    if t.epicId.Some? && record.epicId != t.epicId
    then [UpdateTask(id, record.title, record.details, t.epicId, next, ChildKey(t, UPDATE_EPIC, id))]
    else if record.metadata != next
    then [UpdateTask(id, record.title, record.details, record.epicId, next, ChildKey(t, UPDATE_META, id))]
    else []
  }

  function WantedCompletion(t: Args, id: Id, record: Record): seq<Request> {
    if NeedsCompletion(t, record) then [CompleteTask(id, ChildKey(t, COMPLETE, id))] else []
  }

  function Wanted(t: Args, id: Id, record: Record, next: Metadata): seq<Request> {
    WantedUpdate(t, id, record, next) + WantedCompletion(t, id, record)
  }

  /**
   * At most one update, and then a completion iff one is asked for and missing. The update sends the text as
   * read, the patched metadata, and the epic asked for, or the one read when none is; its key says whether
   * the epic moves.
   */
  lemma RequestsSayWhatIsAsked(t: Args, id: Id, record: Record, next: Metadata)
    ensures var moves := t.epicId.Some? && record.epicId != t.epicId;
            var update := UpdateTask(id, record.title, record.details,
              if t.epicId.Some? then t.epicId else record.epicId, next,
              ChildKey(t, if moves then "triage-update-epic" else "triage-update-meta", id));
            var completion := CompleteTask(id, ChildKey(t, "triage-complete", id));
            Wanted(t, id, record, next) ==
              (if moves || record.metadata != next then [update] else [])
              + (if t.complete && record.status != Completed then [completion] else [])
  {
  }

  /** Nothing the triage asks for is missing from the task. */
  predicate Settled(s: Server, t: Args, id: Id) {
    && Exists(s, id)
    && var columns := s.columns[id];
    && var metadata := MetadataFromRow(columns.metadata);
    && ApplyMetadataPatch(metadata, t.patch) == Ok(metadata)
    && (t.epicId.Some? ==> columns.epicId == t.epicId)
    && (t.complete ==> columns.status == Completed)
  }

  /** A settled task shows what was asked for, column by column, and one that shows it is settled. */
  lemma SettledShowsWhatIsAsked(s: Server, t: Args, id: Id)
    requires PriorityParses(t.patch)
    ensures Settled(s, t, id)
       <==> && id in s.columns && id in s.text.tasks
            && var read := MetadataFromRow(s.columns[id].metadata);
            && IsPatched(read, t.patch, read)
            && (t.epicId.Some? ==> s.columns[id].epicId == t.epicId)
            && (t.complete ==> s.columns[id].status == Completed)
  {
    if Exists(s, id) {
      var read := MetadataFromRow(s.columns[id].metadata);
      PatchOptions(read, t.patch, read);
    }
  }

  /** From `before` to `after`, a triage has changed nothing that it was not asked to change. */
  ghost predicate KeepsUnasked(before: Columns, after: Columns, t: Args) {
    && var old', new' := MetadataFromRow(before.metadata), MetadataFromRow(after.metadata);
    && (!t.patch.clearLabels && t.patch.labels == [] ==> new'.labels == old'.labels)
    && (!t.patch.clearOwner && t.patch.owner.None? ==> new'.owner == old'.owner)
    && (t.patch.priority.None? ==> new'.priority == old'.priority)
    && (t.epicId.None? ==> after.epicId == before.epicId)
    && (!t.complete ==> after.status == before.status)
  }

  /** From `before` to `after`, the task got all that was asked for and nothing else. */
  ghost predicate IsDone(before: Columns, after: Columns, t: Args) {
    && IsPatched(MetadataFromRow(before.metadata), t.patch, MetadataFromRow(after.metadata))
    && after.epicId == (if t.epicId.Some? then t.epicId else before.epicId)
    && after.status == (if t.complete then Completed else before.status)
  }

  /** A patch applied, stored, read back and applied again changes nothing. */
  lemma PatchIsStable(current: Metadata, p: Patch)
    requires ApplyMetadataPatch(current, p).Ok?
    ensures var again := MetadataFromRow(Stored(ApplyMetadataPatch(current, p).value));
            ApplyMetadataPatch(again, p) == Ok(again)
  {
    var next := ApplyMetadataPatch(current, p).value;
    LabelsTwice(p.labels);
    LabelsTwice(next.labels);
    OwnerTwice(p.owner);
    OwnerTwice(next.owner);
    if p.priority.Some? { NormalisersAreCanonical(p.priority.value, p.priority.value); }
  }

  /** A settled task needs no request, and a task that needs none is settled. */
  lemma SettledNeedsNothing(s: Server, t: Args, id: Id)
    requires FetchTask(s, id).Ok? && PriorityParses(t.patch)
    ensures var record := FetchTask(s, id).value;
            && ApplyMetadataPatch(record.metadata, t.patch).Ok?
            && (Settled(s, t, id) <==> Wanted(t, id, record, ApplyMetadataPatch(record.metadata, t.patch).value) == [])
  {
  }

  /** The columns of the task are the same. */
  ghost predicate SameColumns(a: Server, b: Server, id: Id) {
    Exists(a, id) == Exists(b, id) && (Exists(a, id) ==> a.columns[id] == b.columns[id])
  }

  lemma HandleLeavesOthers(s: Server, t: Args, q: Request, other: Id)
    requires Handle(s, t, q).Ok? && q.id != other
    ensures SameColumns(s, Handle(s, t, q).value, other)
  {
    HandleExecutesOrReplays(s, t, q);
  }

  lemma SettledBySameColumns(a: Server, b: Server, t: Args, id: Id)
    requires SameColumns(a, b, id)
    ensures Settled(a, t, id) <==> Settled(b, t, id)
  {
  }

  /** What the update is for; completion is not part of it. */
  ghost predicate UpToDate(s: Server, t: Args, id: Id) {
    Settled(s, t.(complete := false), id)
  }

  /** An update that succeeds brings the task up to date, unless it is answered from a receipt. */
  lemma UpdateSettles(s: Server, t: Args, id: Id, record: Record, next: Metadata)
    requires FetchTask(s, id) == Ok(record) && ApplyMetadataPatch(record.metadata, t.patch) == Ok(next)
    requires WantedUpdate(t, id, record, next) != []
    requires Handle(s, t, WantedUpdate(t, id, record, next)[0]).Ok?
    ensures var q := WantedUpdate(t, id, record, next)[0];
            var end := Handle(s, t, q).value;
            && (UpToDate(end, t, id) <==> !FindsReceipt(s, t, q))
            && Exists(end, id) && end.columns[id].status == record.status
  {
    var q := WantedUpdate(t, id, record, next)[0];
    HandleExecutesOrReplays(s, t, q);
    if !FindsReceipt(s, t, q) { PerformedUpdateSettles(s, t, id, record, next); }
  }

  lemma PerformedUpdateSettles(s: Server, t: Args, id: Id, record: Record, next: Metadata)
    requires FetchTask(s, id) == Ok(record) && ApplyMetadataPatch(record.metadata, t.patch) == Ok(next)
    requires WantedUpdate(t, id, record, next) != []
    requires Perform(s, t, WantedUpdate(t, id, record, next)[0]).Ok?
    ensures var end := Perform(s, t, WantedUpdate(t, id, record, next)[0]).value;
            UpToDate(end, t, id) && end.columns[id].status == record.status
  {
    PatchIsStable(record.metadata, t.patch);
  }

  /** A completion that succeeds completes the task, unless it is answered from a receipt. */
  lemma CompletionSettles(s: Server, t: Args, id: Id, record: Record)
    requires Exists(s, id) && s.columns[id].status == record.status && NeedsCompletion(t, record)
    requires Handle(s, t, WantedCompletion(t, id, record)[0]).Ok?
    ensures var q := WantedCompletion(t, id, record)[0];
            var end := Handle(s, t, q).value;
            Settled(end, t, id) <==> UpToDate(s, t, id) && !FindsReceipt(s, t, q)
  {
    HandleExecutesOrReplays(s, t, WantedCompletion(t, id, record)[0]);
  }

  /** An update of a triage keeps what the triage was not asked to change. */
  lemma UpdateKeepsUnasked(s: Server, t: Args, id: Id, record: Record, next: Metadata)
    requires FetchTask(s, id) == Ok(record) && ApplyMetadataPatch(record.metadata, t.patch) == Ok(next)
    requires WantedUpdate(t, id, record, next) != []
    requires Handle(s, t, WantedUpdate(t, id, record, next)[0]).Ok?
    ensures var end := Handle(s, t, WantedUpdate(t, id, record, next)[0]).value;
            Exists(end, id) && KeepsUnasked(s.columns[id], end.columns[id], t)
  {
    var q := WantedUpdate(t, id, record, next)[0];
    HandleExecutesOrReplays(s, t, q);
    if !FindsReceipt(s, t, q) { PerformedUpdateKeepsUnasked(s, t, id, record, next); }
  }

  lemma PerformedUpdateKeepsUnasked(s: Server, t: Args, id: Id, record: Record, next: Metadata)
    requires FetchTask(s, id) == Ok(record) && ApplyMetadataPatch(record.metadata, t.patch) == Ok(next)
    requires WantedUpdate(t, id, record, next) != []
    requires Perform(s, t, WantedUpdate(t, id, record, next)[0]).Ok?
    ensures var end := Perform(s, t, WantedUpdate(t, id, record, next)[0]).value;
            Exists(end, id) && KeepsUnasked(s.columns[id], end.columns[id], t)
  {
    PerformedUpdateStores(s, t, id, record, next);
    PatchReadsBack(s.columns[id].metadata, t.patch, next);
  }

  lemma PerformedUpdateStores(s: Server, t: Args, id: Id, record: Record, next: Metadata)
    requires FetchTask(s, id) == Ok(record) && WantedUpdate(t, id, record, next) != []
    requires Perform(s, t, WantedUpdate(t, id, record, next)[0]).Ok?
    ensures var end := Perform(s, t, WantedUpdate(t, id, record, next)[0]).value;
            Exists(end, id) && end.columns[id] == Columns(record.status,
              if t.epicId.Some? then t.epicId else record.epicId, Stored(next))
  {
  }

  /** What a patch does not name reads back as before once it is stored. */
  lemma PatchReadsBack(stored: Metadata, p: Patch, next: Metadata)
    requires ApplyMetadataPatch(MetadataFromRow(stored), p) == Ok(next)
    ensures var before, after := MetadataFromRow(stored), MetadataFromRow(Stored(next));
            && (!p.clearLabels && p.labels == [] ==> after.labels == before.labels)
            && (!p.clearOwner && p.owner.None? ==> after.owner == before.owner)
            && (p.priority.None? ==> after.priority == before.priority)
  {
    LabelsTwice(stored.labels);
    OwnerTwice(stored.owner);
    PriorityReadsBack(stored.priority);
  }

  lemma PriorityReadsBack(priority: string)
    ensures PriorityFromRow(PriorityFromRow(priority)) == PriorityFromRow(priority)
  {
    NormalisersAreCanonical(priority, priority);
    LowerWordIsIdentifier("invalid");
  }

  lemma CompletionKeepsUnasked(s: Server, t: Args, id: Id, record: Record)
    requires Exists(s, id) && NeedsCompletion(t, record) && Handle(s, t, WantedCompletion(t, id, record)[0]).Ok?
    ensures var end := Handle(s, t, WantedCompletion(t, id, record)[0]).value;
            Exists(end, id) && KeepsUnasked(s.columns[id], end.columns[id], t)
  {
    HandleExecutesOrReplays(s, t, WantedCompletion(t, id, record)[0]);
  }

  /** What is settled in the end and unchanged where nothing was asked is done. */
  lemma SettledAndKeptIsDone(a: Server, b: Server, t: Args, id: Id)
    requires PriorityParses(t.patch) && Exists(a, id) && Settled(b, t, id)
    requires KeepsUnasked(a.columns[id], b.columns[id], t)
    ensures IsDone(a.columns[id], b.columns[id], t)
  {
    SettledShowsWhatIsAsked(b, t, id);
  }
}
