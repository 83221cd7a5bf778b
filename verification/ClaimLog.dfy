/** The events that claims log, and whether a catch-up can read them back. */
module ClaimLog {
  import opened Common
  import opened EventLog
  import opened Replay
  import Claims
  import ClaimStore
  import ClaimReceipts

  /** `event_kind_name` */
  function KindName(kind: Claims.EventKind): string {
    match kind
    case TaskClaimed => "task_claimed"
    case TaskReleased => "task_released"
    case TaskCompleted => "task_completed"
  }

  function RowOf(e: Claims.Event, eventId: Id): EventRow {
    EventRow(eventId, e.workspace, KindName(e.kind), e.taskId, e.createdAt)
  }

  /** The rows of `events`; an event's place in the log stands for its fresh id. */
  function LogOf(events: seq<Claims.Event>): (log: set<EventRow>)
    ensures DistinctIds(log)
  {
    set i: nat | i < |events| :: RowOf(events[i], i)
  }

  /** Every event is logged, with its kind, workspace, payload and time. */
  lemma LogShowsEvents(events: seq<Claims.Event>, i: nat)
    requires i < |events|
    ensures var e := events[i];
            var kind := if e.kind.TaskClaimed? then "task_claimed" else if e.kind.TaskReleased? then "task_released"
                        else "task_completed";
            EventRow(i, e.workspace, kind, e.taskId, e.createdAt) in LogOf(events)
  {
    assert RowOf(events[i], i) in LogOf(events);
  }

  /** A claim whose payload names no task. */
  predicate NamesNoTask(e: Claims.Event) {
    e.kind.TaskClaimed? && e.taskId.None?
  }

  ghost predicate HasNamelessClaim(events: seq<Claims.Event>) {
    exists e :: e in events && NamesNoTask(e)
  }

  /** Some `claim_next` of the run takes a task. */
  ghost predicate TakesNext(b: Claims.Board, s: Claims.Settings, clock: Time, steps: seq<Claims.Timed>)
    decreases |steps|
  {
    steps != [] &&
    var now, c := clock + steps[0].wait, steps[0].command;
    var r := Claims.Step(b, s, c, now);
    (c.Claim? && !c.named && r.Ok?) || TakesNext(if r.Ok? then r.value else b, s, now, steps[1..])
  }

  lemma StepLogs(b: Claims.Board, s: Claims.Settings, c: Claims.Command, now: Time)
    requires Claims.Step(b, s, c, now).Ok?
    ensures HasNamelessClaim(Claims.Step(b, s, c, now).value.events)
            <==> HasNamelessClaim(b.events) || (c.Claim? && !c.named)
  {
    var events := Claims.Step(b, s, c, now).value.events;
    if events != b.events {
      var last := events[|events| - 1];
      assert events == b.events + [last];
      assert NamesNoTask(last) <==> c.Claim? && !c.named;
      assert last in events && forall e | e in b.events :: e in events;
    }
  }

  lemma {:induction false} RunLogs(b: Claims.Board, s: Claims.Settings, clock: Time, steps: seq<Claims.Timed>)
    ensures HasNamelessClaim(Claims.Run(b, s, clock, steps).0.events)
            <==> HasNamelessClaim(b.events) || TakesNext(b, s, clock, steps)
    decreases |steps|
  {
    if steps != [] {
      var now := clock + steps[0].wait;
      var r := Claims.Step(b, s, steps[0].command, now);
      if r.Ok? { StepLogs(b, s, steps[0].command, now); }
      RunLogs(if r.Ok? then r.value else b, s, now, steps[1..]);
    }
  }

  lemma UnreadableRows(events: seq<Claims.Event>)
    ensures (exists e :: e in LogOf(events) && Unreadable(e)) <==> HasNamelessClaim(events)
  {
    if HasNamelessClaim(events) {
      var e :| e in events && NamesNoTask(e);
      var i: nat :| i < |events| && events[i] == e;
      assert RowOf(events[i], i) in LogOf(events) && Unreadable(RowOf(events[i], i));
    }
    if e :| e in LogOf(events) && Unreadable(e) {
      var i: nat :| i < |events| && e == RowOf(events[i], i);
      assert events[i] in events && NamesNoTask(events[i]);
    }
  }

  /**
   * A catch-up over the whole log of any run, the events of other commands included: with a projector that
   * fails only on what it cannot read, it succeeds exactly when no `claim_next` has taken a task.
   */
  lemma FullCatchUpIffNoClaimNext(s: Claims.Settings, clock: Time, steps: seq<Claims.Timed>, others: set<EventRow>,
      u: CatchingUp)
    requires Happens(u) && u.start == None
    requires u.log == LogOf(Claims.Run(Claims.EMPTY_BOARD, s, clock, steps).0.events) + others
    requires forall e | e in others :: !Unreadable(e)
    requires RefusesUnreadable(u.project) && ProjectsReadable(u.project)
    ensures u.succeeded <==> !TakesNext(Claims.EMPTY_BOARD, s, clock, steps)
  {
    RunLogs(Claims.EMPTY_BOARD, s, clock, steps);
    UnreadableRows(Claims.Run(Claims.EMPTY_BOARD, s, clock, steps).0.events);
    SucceedsIffAllReadable(u);
    assert After(u.log, u.start) == u.log;
  }

  /** A run that gets there: one task is offered, `claim_next` takes it, and the first catch-up of all fails. */
  method ClaimNextBlocksCatchUp()
    returns (claimed: Result<Option<Claims.ClaimRow>, Error>, replayed: Result<nat, Error>)
    ensures claimed.Ok? && claimed.value.Some? && replayed.Err?
  {
    var steps := [Claims.OFFER] + [];
    ghost var board := Claims.Board(Claims.OneTask(Claims.OFFERED), [], []);
    ClaimReceipts.OfferIsListed(steps, board);
    var store := new ClaimStore.Store(0);
    var now := store.Others(Claims.SETTINGS, steps);
    assert store.Contents() == board && store.clock == 0;
    ghost var attempt := ClaimStore.Attempt(board, 0, Claims.SETTINGS, "w", "a", None, [1], [[]]);
    claimed := store.ClaimNextTask(Claims.SETTINGS, "w", "a", None, [1], [[]]);
    OnlyTaskIsTaken(attempt, claimed, store.Contents());
    var log, project := LogOf(store.events), (n: nat, e: EventRow) => !Unreadable(e);
    NamelessClaimIsNotAccepted(store.events, project);
    var replayer := new Replayer(log, None, project);
    replayed := replayer.CatchUp(128);
  }

  lemma OnlyTaskIsTaken(a: ClaimStore.Attempt, r: Result<Option<Claims.ClaimRow>, Error>, end: Claims.Board)
    requires a.board == Claims.Board(Claims.OneTask(Claims.OFFERED), [], []) && Claims.Sound(a.board, a.clock)
    requires a.settings == Claims.SETTINGS && a.clock == 0 && a.workspace == "w" && a.lease == None
    requires a.candidates == [1] && a.turns == [[]]
    requires ClaimStore.ClaimNextOutcome(a, r, end)
    ensures r.Ok? && r.value.Some? && HasNamelessClaim(end.events)
  {
    assert ClaimStore.Flatten(a.turns[..1]) == [] by { assert a.turns[..1] == [[]] && ClaimStore.Flatten([]) == []; }
    ClaimStore.OpenTaskIsTaken(a, 1);
    TakenTurnIsNameless(a, end, r.value.value);
  }

  lemma TakenTurnIsNameless(a: ClaimStore.Attempt, end: Claims.Board, row: Claims.ClaimRow)
    requires |a.turns| == |a.candidates| > 0 && ClaimStore.TurnOutcome(a, 0) == Ok((end, row))
    ensures HasNamelessClaim(end.events)
  {
    ClaimStore.TurnTakes(a, 0, end, row);
    var last := end.events[|end.events| - 1];
    assert last in end.events && NamesNoTask(last);
  }

  lemma NamelessClaimIsNotAccepted(events: seq<Claims.Event>, project: Projector)
    requires HasNamelessClaim(events) && RefusesUnreadable(project)
    ensures !Accepts(project, 0, Ordered(After(LogOf(events), None)))
  {
    UnreadableRows(events);
    var e :| e in LogOf(events) && Unreadable(e);
    UnreadableIsNotAccepted(LogOf(events), None, project, 0, e);
  }
}
