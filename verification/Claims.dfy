/** Lease-backed claims: claim, release, complete, and the `claim_next` loop. */
module Claims {
  import opened Common
  import opened Tables
  import opened Listing

  const TICKS_PER_SECOND: int := 1_000_000
  const MINIMUM_LEASE_SECONDS: int := 30

  /** The server's default lease and the last representable timestamp. */
  datatype Settings = Settings(defaultLeaseSeconds: int, latestTimestamp: Time)

  datatype ClaimRow = ClaimRow(
    claimId: Id,
    taskId: Id,
    workspace: string,
    actor: string,
    claimedAt: Time,
    expiresAt: Time,
    releasedAt: Option<Time>)

  datatype EventKind = TaskClaimed | TaskReleased | TaskCompleted
  /** A logged event: `taskId` is the field of that name in its payload, if the payload has one. */
  datatype Event = Event(kind: EventKind, workspace: string, actor: string, taskId: Option<Id>, createdAt: Time)

  /** The tables: rows of `task_claims` in the order they were inserted, and the log. */
  datatype Board = Board(catalog: Catalog, claims: seq<ClaimRow>, events: seq<Event>)

  // ---------------------------------------------------------------------------------------------
  // Leases and active claims
  // ---------------------------------------------------------------------------------------------

  function NormalizedLeaseSeconds(requested: Option<int>, s: Settings): (seconds: int)
    ensures seconds >= MINIMUM_LEASE_SECONDS
    ensures requested.Some? && requested.value >= MINIMUM_LEASE_SECONDS ==> seconds == requested.value
    ensures requested.None? && s.defaultLeaseSeconds >= MINIMUM_LEASE_SECONDS ==> seconds == s.defaultLeaseSeconds
    ensures seconds > MINIMUM_LEASE_SECONDS ==> seconds == requested.UnwrapOr(s.defaultLeaseSeconds)
  {
    var seconds := if requested.Some? then requested.value else s.defaultLeaseSeconds;
    if seconds < MINIMUM_LEASE_SECONDS then MINIMUM_LEASE_SECONDS else seconds
  }

  function CalculateClaimExpiry(claimedAt: Time, seconds: int, s: Settings): Option<Time> {
    var expiry := claimedAt + seconds * TICKS_PER_SECOND;
    if expiry <= s.latestTimestamp then Some(expiry) else None
  }

  predicate IsActive(c: ClaimRow, taskId: Id, now: Time) {
    c.taskId == taskId && c.releasedAt.None? && c.expiresAt > now
  }

  ghost predicate HasActiveClaim(b: Board, taskId: Id, now: Time) {
    exists c :: c in b.claims && IsActive(c, taskId, now)
  }

  /** `fetch_active_claim_tx`: the active claim of the latest `claimed_at`. */
  function FetchActiveClaim(claims: seq<ClaimRow>, taskId: Id, now: Time): (r: Option<ClaimRow>)
    ensures r.None? <==> forall c | c in claims :: !IsActive(c, taskId, now)
    ensures r.Some? ==> r.value in claims && IsActive(r.value, taskId, now)
    ensures r.Some? ==> forall c | c in claims && IsActive(c, taskId, now) :: c.claimedAt <= r.value.claimedAt
  {
    if claims == [] then None
    else
      var rest, last := FetchActiveClaim(claims[..|claims| - 1], taskId, now), claims[|claims| - 1];
      assert claims == claims[..|claims| - 1] + [last];
      if IsActive(last, taskId, now) && (rest.None? || rest.value.claimedAt <= last.claimedAt) then Some(last) else rest
  }

  // ---------------------------------------------------------------------------------------------
  // Commands
  // ---------------------------------------------------------------------------------------------

  function WithStatus(c: Catalog, taskId: Id, status: Status, now: Time): Catalog
    requires taskId in c.tasks
  {
    c.(tasks := c.tasks[taskId := c.tasks[taskId].(status := status, updatedAt := now)])
  }

  /** The payload's task: the request of `claim_task` names it, that of `claim_next_task` cannot. */
  function ClaimPayload(taskId: Id, named: bool): Option<Id> {
    if named then Some(taskId) else None
  }

  /** `persist_task_claim`: neither the status nor the readiness of the task is consulted. */
  function PersistTaskClaim(b: Board, s: Settings, workspace: string, actor: string, taskId: Id, lease: Option<int>,
      named: bool, now: Time): Result<(Board, ClaimRow), Error> {
    var expiry := CalculateClaimExpiry(now, NormalizedLeaseSeconds(lease, s), s);
    if !InWorkspace(b.catalog.tasks, taskId, workspace) then Err(NotFound)
    else if FetchActiveClaim(b.claims, taskId, now).Some? then Err(Conflict)
    else if expiry.None? then Err(BadRequest)
    else
      var row := ClaimRow(|b.claims|, taskId, workspace, actor, now, expiry.value, None);
      var events := b.events + [Event(TaskClaimed, workspace, actor, ClaimPayload(taskId, named), now)];
      Ok((Board(WithStatus(b.catalog, taskId, Claimed, now), b.claims + [row], events), row))
  }

  function ReleaseById(claims: seq<ClaimRow>, claimId: Id, now: Time): (r: seq<ClaimRow>)
    ensures |r| == |claims|
    ensures forall i | 0 <= i < |claims| ::
              r[i] == if claims[i].claimId == claimId then claims[i].(releasedAt := Some(now)) else claims[i]
  {
    seq(|claims|, i requires 0 <= i < |claims| =>
      if claims[i].claimId == claimId then claims[i].(releasedAt := Some(now)) else claims[i])
  }

  function ReleaseActive(claims: seq<ClaimRow>, taskId: Id, now: Time): (r: seq<ClaimRow>)
    ensures |r| == |claims|
    ensures forall i | 0 <= i < |claims| ::
              r[i] == if IsActive(claims[i], taskId, now) then claims[i].(releasedAt := Some(now)) else claims[i]
  {
    seq(|claims|, i requires 0 <= i < |claims| =>
      if IsActive(claims[i], taskId, now) then claims[i].(releasedAt := Some(now)) else claims[i])
  }

  function ReleaseTask(b: Board, workspace: string, actor: string, taskId: Id, now: Time): Result<Board, Error> {
    var claim := FetchActiveClaim(b.claims, taskId, now);
    if !InWorkspace(b.catalog.tasks, taskId, workspace) then Err(NotFound)
    else if claim.None? || claim.value.actor != actor then Err(Conflict)
    else Ok(Board(WithStatus(b.catalog, taskId, Open, now),
                  ReleaseById(b.claims, claim.value.claimId, now),
                  b.events + [Event(TaskReleased, workspace, actor, Some(taskId), now)]))
  }

  function CompleteTask(b: Board, workspace: string, actor: string, taskId: Id, now: Time): Result<Board, Error> {
    var claim := FetchActiveClaim(b.claims, taskId, now);
    if claim.Some? && claim.value.actor != actor then Err(Conflict)
    else if !InWorkspace(b.catalog.tasks, taskId, workspace) then Err(NotFound)
    else Ok(Board(WithStatus(b.catalog, taskId, Completed, now),
                  ReleaseActive(b.claims, taskId, now),
                  b.events + [Event(TaskCompleted, workspace, actor, Some(taskId), now)]))
  }

  datatype Command =
    | Claim(workspace: string, actor: string, taskId: Id, lease: Option<int>, named: bool)  // unnamed in `claim_next`
    | Release(workspace: string, actor: string, taskId: Id)
    | Complete(workspace: string, actor: string, taskId: Id)
    | Reshape(catalog: Catalog)  // offers, task updates, dependencies and policies
    | Idle

  /** A command and the time that passes before it. */
  datatype Timed = Timed(wait: nat, command: Command)

  /** What the other handlers may do to the catalog: add open tasks, and rewrite rows without touching their status. */
  predicate KeepsStatuses(before: Catalog, after: Catalog) {
    && (forall id | id in before.tasks ::
          id in after.tasks && after.tasks[id].workspace == before.tasks[id].workspace
            && after.tasks[id].status == before.tasks[id].status)
    && (forall id | id in after.tasks && id !in before.tasks :: after.tasks[id].status == Open)
  }

  function Step(b: Board, s: Settings, c: Command, now: Time): Result<Board, Error> {
    match c
    case Claim(ws, actor, id, lease, named) =>
      var r := PersistTaskClaim(b, s, ws, actor, id, lease, named, now);
      if r.Ok? then Ok(r.value.0) else Err(r.error)
    case Release(ws, actor, id) => ReleaseTask(b, ws, actor, id, now)
    case Complete(ws, actor, id) => CompleteTask(b, ws, actor, id, now)
    case Reshape(catalog) => if KeepsStatuses(b.catalog, catalog) then Ok(b.(catalog := catalog)) else Err(BadRequest)
    case Idle => Ok(b)
  }

  /** A board and the time of its last command; a refused command is rolled back. */
  function Run(b: Board, s: Settings, clock: Time, steps: seq<Timed>): (Board, Time)
    decreases |steps|
  {
    if steps == [] then (b, clock)
    else
      var now := clock + steps[0].wait;
      var r := Step(b, s, steps[0].command, now);
      Run(if r.Ok? then r.value else b, s, now, steps[1..])
  }

  // ---------------------------------------------------------------------------------------------
  // What each command does
  // ---------------------------------------------------------------------------------------------

  /**
   * The row is that of a claim granted by this command at this time: it lasts as long as was asked for, or
   * the default when nothing was, but 30 seconds at least.
   */
  ghost predicate Grants(s: Settings, c: Command, now: Time, row: ClaimRow) {
    && c.Claim?
    && row.taskId == c.taskId && row.workspace == c.workspace && row.actor == c.actor && row.claimedAt == now
    && var asked := if c.lease.Some? then c.lease.value else s.defaultLeaseSeconds;
    row.expiresAt - row.claimedAt == (if asked < 30 then 30 else asked) * 1_000_000
  }

  /** The task has the status and the time of its last update, and nothing else of the catalog has changed. */
  ghost predicate OnlyStatusChanges(before: Catalog, after: Catalog, taskId: Id, status: Status, now: Time) {
    && after.dependencies == before.dependencies && after.ranks == before.ranks
    && taskId in before.tasks && after.tasks.Keys == before.tasks.Keys
    && (forall id | id in before.tasks && id != taskId :: after.tasks[id] == before.tasks[id])
    && after.tasks[taskId].status == status && after.tasks[taskId].updatedAt == now
    && after.tasks[taskId] == before.tasks[taskId].(status := status, updatedAt := now)
  }

  /** The active claims of the task end now, and no other claim changes. */
  ghost predicate OnlyActiveEnd(before: seq<ClaimRow>, after: seq<ClaimRow>, taskId: Id, now: Time) {
    && |after| == |before|
    && forall i | 0 <= i < |before| ::
         if before[i].taskId == taskId && before[i].releasedAt.None? && before[i].expiresAt > now
         then after[i] == before[i].(releasedAt := Some(now)) else after[i] == before[i]
  }

  lemma ClaimDoes(b: Board, s: Settings, c: Command, now: Time)
    requires c.Claim? && Step(b, s, c, now).Ok?
    ensures var next := Step(b, s, c, now).value;
            && next.claims != [] && next.claims[..|next.claims| - 1] == b.claims
            && var row := next.claims[|b.claims|];
            && Grants(s, c, now, row) && row.releasedAt == None && row.claimId == |b.claims|
            && next.events == b.events + [Event(TaskClaimed, c.workspace, c.actor,
               if c.named then Some(c.taskId) else None, now)]
            && OnlyStatusChanges(b.catalog, next.catalog, c.taskId, Claimed, now)
  {
  }

  /** A claim succeeds exactly for an unclaimed task of the workspace whose lease ends at a representable time. */
  lemma ClaimSucceedsIff(b: Board, s: Settings, c: Command, now: Time)
    requires c.Claim?
    ensures Step(b, s, c, now).Ok?
       <==> && c.taskId in b.catalog.tasks && b.catalog.tasks[c.taskId].workspace == c.workspace
            && (forall k | k in b.claims && k.taskId == c.taskId :: k.releasedAt.Some? || k.expiresAt <= now)
            && var asked := if c.lease.Some? then c.lease.value else s.defaultLeaseSeconds;
            now + (if asked < 30 then 30 else asked) * 1_000_000 <= s.latestTimestamp
  {
  }

  lemma ClaimGrants(b: Board, s: Settings, workspace: string, actor: string, taskId: Id, lease: Option<int>,
      named: bool, now: Time)
    ensures var r := PersistTaskClaim(b, s, workspace, actor, taskId, lease, named, now);
            r.Ok? ==>
              && Grants(s, Claim(workspace, actor, taskId, lease, named), now, r.value.1)
              && OnlyStatusChanges(b.catalog, r.value.0.catalog, taskId, Claimed, now)
  {
    if PersistTaskClaim(b, s, workspace, actor, taskId, lease, named, now).Ok? {
      ClaimDoes(b, s, Claim(workspace, actor, taskId, lease, named), now);
    }
  }

  /** A release succeeds exactly for the holder of an active claim of a task of the workspace. */
  lemma ReleaseDoes(b: Board, s: Settings, c: Command, now: Time)
    requires c.Release? && Sound(b, now)
    ensures Step(b, s, c, now).Ok?
       <==> && c.taskId in b.catalog.tasks && b.catalog.tasks[c.taskId].workspace == c.workspace
            && exists k :: k in b.claims && IsActive(k, c.taskId, now) && k.actor == c.actor
    ensures Step(b, s, c, now).Ok? ==>
              var next := Step(b, s, c, now).value;
              && OnlyActiveEnd(b.claims, next.claims, c.taskId, now)
              && next.events == b.events + [Event(TaskReleased, c.workspace, c.actor, Some(c.taskId), now)]
              && OnlyStatusChanges(b.catalog, next.catalog, c.taskId, Open, now)
  {
    if FetchActiveClaim(b.claims, c.taskId, now).Some? {
      ReleaseEndsWhatIsActive(b, c.taskId, now);
      ActiveClaimsAreOne(b, c.taskId, now);
    }
  }

  lemma ActiveClaimsAreOne(b: Board, taskId: Id, now: Time)
    requires Sound(b, now) && FetchActiveClaim(b.claims, taskId, now).Some?
    ensures forall k | k in b.claims && IsActive(k, taskId, now) ::
              k == FetchActiveClaim(b.claims, taskId, now).value
  {
    var claim := FetchActiveClaim(b.claims, taskId, now).value;
    var j :| 0 <= j < |b.claims| && b.claims[j] == claim;
    forall k | k in b.claims && IsActive(k, taskId, now) ensures k == claim {
      var i :| 0 <= i < |b.claims| && b.claims[i] == k;
      ActiveClaimIsUnique(b, now, taskId, i, j);
    }
  }

  /** A completion succeeds exactly for a task of the workspace that nobody else holds. */
  lemma CompleteDoes(b: Board, s: Settings, c: Command, now: Time)
    requires c.Complete? && Sound(b, now)
    ensures Step(b, s, c, now).Ok?
       <==> && c.taskId in b.catalog.tasks && b.catalog.tasks[c.taskId].workspace == c.workspace
            && forall k | k in b.claims && IsActive(k, c.taskId, now) :: k.actor == c.actor
    ensures Step(b, s, c, now).Ok? ==>
              var next := Step(b, s, c, now).value;
              && OnlyActiveEnd(b.claims, next.claims, c.taskId, now)
              && next.events == b.events + [Event(TaskCompleted, c.workspace, c.actor, Some(c.taskId), now)]
              && OnlyStatusChanges(b.catalog, next.catalog, c.taskId, Completed, now)
  {
    if FetchActiveClaim(b.claims, c.taskId, now).Some? { ActiveClaimsAreOne(b, c.taskId, now); }
  }

  /** The time of the n-th command of a run. */
  function TimeOf(start: Time, steps: seq<Timed>, n: nat): Time
    requires n < |steps|
    decreases n
  {
    if n == 0 then start + steps[0].wait else TimeOf(start + steps[0].wait, steps[1..], n - 1)
  }

  lemma {:induction false} RunKeepsClaim(b: Board, s: Settings, clock: Time, steps: seq<Timed>, i: nat)
    requires i < |b.claims|
    ensures var end := Run(b, s, clock, steps).0;
            i < |end.claims| && end.claims[i] == b.claims[i].(releasedAt := end.claims[i].releasedAt)
    decreases |steps|
  {
    if steps != [] {
      var now := clock + steps[0].wait;
      var r := Step(b, s, steps[0].command, now);
      StepKeepsClaim(b, s, steps[0].command, now, i);
      RunKeepsClaim(if r.Ok? then r.value else b, s, now, steps[1..], i);
    }
  }

  lemma StepKeepsClaim(b: Board, s: Settings, c: Command, now: Time, i: nat)
    requires i < |b.claims|
    ensures var r := Step(b, s, c, now);
            r.Ok? ==>
              && i < |r.value.claims|
              && r.value.claims[i] == b.claims[i].(releasedAt := r.value.claims[i].releasedAt)
  {
  }

  /**
   * Every claim of any run was granted by one of its commands, for as long as that command asked; while it
   * is not released it is active exactly until then.
   */
  lemma {:induction false} EveryClaimIsGranted(b: Board, s: Settings, clock: Time, steps: seq<Timed>, i: nat)
    requires |b.claims| <= i < |Run(b, s, clock, steps).0.claims|
    ensures var row := Run(b, s, clock, steps).0.claims[i];
            && (exists n | 0 <= n < |steps| :: Grants(s, steps[n].command, TimeOf(clock, steps, n), row))
            && (forall moment: Time :: IsActive(row, row.taskId, moment)
                  <==> row.releasedAt.None? && moment < row.expiresAt)
    decreases |steps|
  {
    var now, c := clock + steps[0].wait, steps[0].command;
    var r := Step(b, s, c, now);
    var next := if r.Ok? then r.value else b;
    if i < |next.claims| {
      assert c.Claim? && r.Ok? && i == |b.claims|;
      ClaimDoes(b, s, c, now);
      RunKeepsClaim(next, s, now, steps[1..], i);
      assert Grants(s, steps[0].command, TimeOf(clock, steps, 0), Run(b, s, clock, steps).0.claims[i]);
    } else {
      EveryClaimIsGranted(next, s, now, steps[1..], i);
      var n :| 0 <= n < |steps[1..]|
            && Grants(s, steps[1..][n].command, TimeOf(now, steps[1..], n), Run(b, s, clock, steps).0.claims[i]);
      assert steps[n + 1] == steps[1..][n] && TimeOf(clock, steps, n + 1) == TimeOf(now, steps[1..], n);
    }
  }

  const EMPTY_BOARD := Board(Catalog(map[], {}, map[]), [], [])

  // ---------------------------------------------------------------------------------------------
  // What every run keeps
  // ---------------------------------------------------------------------------------------------

  /** When the claim stopped, or will stop, holding its task. */
  function EndOf(c: ClaimRow): Time {
    if c.releasedAt.Some? && c.releasedAt.value < c.expiresAt then c.releasedAt.value else c.expiresAt
  }

  ghost predicate ClaimsInTime(b: Board, clock: Time) {
    forall i | 0 <= i < |b.claims| ::
      var c := b.claims[i];
      && c.claimId == i
      && c.taskId in b.catalog.tasks
      && c.claimedAt <= clock
      && c.claimedAt + MINIMUM_LEASE_SECONDS * TICKS_PER_SECOND <= c.expiresAt
      && (c.releasedAt.Some? ==> c.claimedAt <= c.releasedAt.value <= clock && c.releasedAt.value < c.expiresAt)
  }

  /** A later claim of a task starts only when every earlier one has ended. */
  ghost predicate ClaimsInTurn(b: Board) {
    forall i, j | 0 <= i < j < |b.claims| && b.claims[i].taskId == b.claims[j].taskId ::
      EndOf(b.claims[i]) <= b.claims[j].claimedAt
  }

  ghost predicate ActiveIsClaimed(b: Board, clock: Time) {
    forall c | c in b.claims && IsActive(c, c.taskId, clock) ::
      c.taskId in b.catalog.tasks && b.catalog.tasks[c.taskId].status == Claimed
  }

  ghost predicate Sound(b: Board, clock: Time) {
    ClaimsInTime(b, clock) && ClaimsInTurn(b) && ActiveIsClaimed(b, clock)
  }

  lemma SoundLater(b: Board, clock: Time, now: Time)
    requires Sound(b, clock) && clock <= now
    ensures Sound(b, now)
  {
  }

  lemma ActiveClaimIsUnique(b: Board, clock: Time, taskId: Id, i: nat, j: nat)
    requires Sound(b, clock) && i < |b.claims| && j < |b.claims|
    requires IsActive(b.claims[i], taskId, clock) && IsActive(b.claims[j], taskId, clock)
    ensures i == j
  {
  }

  lemma ClaimKeepsSound(b: Board, s: Settings, workspace: string, actor: string, taskId: Id, lease: Option<int>,
      named: bool, now: Time)
    requires Sound(b, now)
    ensures var r := PersistTaskClaim(b, s, workspace, actor, taskId, lease, named, now);
            r.Ok? ==> Sound(r.value.0, now)
  {
    var r := PersistTaskClaim(b, s, workspace, actor, taskId, lease, named, now);
    if r.Ok? {
      var next := r.value.0;
      forall i | 0 <= i < |b.claims| && b.claims[i].taskId == taskId ensures EndOf(b.claims[i]) <= now {
        assert b.claims[i] in b.claims;
      }
      assert forall c | c in next.claims :: c in b.claims || c == r.value.1;
    }
  }

  /** Ending active claims now shortens their intervals and leaves the others alone. */
  lemma ReleasedKeepTurn(b: Board, next: Board, now: Time)
    requires Sound(b, now) && |next.claims| == |b.claims|
    requires forall id | id in b.catalog.tasks :: id in next.catalog.tasks
    requires forall i | 0 <= i < |b.claims| ::
               || next.claims[i] == b.claims[i]
               || (b.claims[i].releasedAt.None? && b.claims[i].expiresAt > now
                  && next.claims[i] == b.claims[i].(releasedAt := Some(now)))
    ensures ClaimsInTime(next, now) && ClaimsInTurn(next)
  {
    forall i | 0 <= i < |b.claims|
      ensures EndOf(next.claims[i]) <= EndOf(b.claims[i])
      ensures next.claims[i].taskId == b.claims[i].taskId && next.claims[i].claimedAt == b.claims[i].claimedAt
    {
    }
  }

  /** A task has at most one active claim, so ending it by id ends every active claim of the task. */
  lemma ReleaseEndsWhatIsActive(b: Board, taskId: Id, now: Time)
    requires Sound(b, now) && FetchActiveClaim(b.claims, taskId, now).Some?
    ensures ReleaseById(b.claims, FetchActiveClaim(b.claims, taskId, now).value.claimId, now)
         == ReleaseActive(b.claims, taskId, now)
  {
    var claim := FetchActiveClaim(b.claims, taskId, now).value;
    var k :| 0 <= k < |b.claims| && b.claims[k] == claim;
    forall i | 0 <= i < |b.claims|
      ensures IsActive(b.claims[i], taskId, now) <==> b.claims[i].claimId == claim.claimId
    {
      if IsActive(b.claims[i], taskId, now) { ActiveClaimIsUnique(b, now, taskId, i, k); }
    }
  }

  lemma EndingClaimsKeepsSound(b: Board, taskId: Id, status: Status, events: seq<Event>, now: Time)
    requires Sound(b, now) && taskId in b.catalog.tasks
    ensures Sound(Board(WithStatus(b.catalog, taskId, status, now), ReleaseActive(b.claims, taskId, now), events), now)
  {
    var next := Board(WithStatus(b.catalog, taskId, status, now), ReleaseActive(b.claims, taskId, now), events);
    ReleasedKeepTurn(b, next, now);
    forall c | c in next.claims && IsActive(c, c.taskId, now)
      ensures c.taskId in next.catalog.tasks && next.catalog.tasks[c.taskId].status == Claimed
    {
      var i :| 0 <= i < |next.claims| && next.claims[i] == c;
      assert b.claims[i] in b.claims;
    }
  }

  lemma ReleaseKeepsSound(b: Board, workspace: string, actor: string, taskId: Id, now: Time)
    requires Sound(b, now)
    ensures var r := ReleaseTask(b, workspace, actor, taskId, now); r.Ok? ==> Sound(r.value, now)
  {
    if ReleaseTask(b, workspace, actor, taskId, now).Ok? {
      ReleaseEndsWhatIsActive(b, taskId, now);
      var event := Event(TaskReleased, workspace, actor, Some(taskId), now);
      EndingClaimsKeepsSound(b, taskId, Open, b.events + [event], now);
    }
  }

  lemma CompleteKeepsSound(b: Board, workspace: string, actor: string, taskId: Id, now: Time)
    requires Sound(b, now)
    ensures var r := CompleteTask(b, workspace, actor, taskId, now); r.Ok? ==> Sound(r.value, now)
  {
    if CompleteTask(b, workspace, actor, taskId, now).Ok? {
      var event := Event(TaskCompleted, workspace, actor, Some(taskId), now);
      EndingClaimsKeepsSound(b, taskId, Completed, b.events + [event], now);
    }
  }

  lemma StepKeepsSound(b: Board, s: Settings, c: Command, now: Time)
    requires Sound(b, now)
    ensures var r := Step(b, s, c, now); r.Ok? ==> Sound(r.value, now)
  {
    match c
    case Claim(ws, actor, id, lease, named) => ClaimKeepsSound(b, s, ws, actor, id, lease, named, now);
    case Release(ws, actor, id) => ReleaseKeepsSound(b, ws, actor, id, now);
    case Complete(ws, actor, id) => CompleteKeepsSound(b, ws, actor, id, now);
    case Reshape(catalog) =>
    case Idle =>
  }

  lemma TimedStepKeepsSound(b: Board, s: Settings, clock: Time, c: Command, now: Time)
    requires Sound(b, clock) && clock <= now
    ensures var r := Step(b, s, c, now); Sound(if r.Ok? then r.value else b, now)
  {
    SoundLater(b, clock, now);
    StepKeepsSound(b, s, c, now);
  }

  lemma {:induction false} RunKeepsSound(b: Board, s: Settings, clock: Time, steps: seq<Timed>)
    requires Sound(b, clock)
    ensures var (end, now) := Run(b, s, clock, steps); Sound(end, now) && clock <= now
    decreases |steps|
  {
    if steps != [] {
      var now := clock + steps[0].wait;
      TimedStepKeepsSound(b, s, clock, steps[0].command, now);
      var r := Step(b, s, steps[0].command, now);
      RunKeepsSound(if r.Ok? then r.value else b, s, now, steps[1..]);
    }
  }

  /** Over every run, every lease is granted for 30 seconds at least. */
  lemma EveryLeaseLasts(s: Settings, start: Time, steps: seq<Timed>, i: nat)
    requires i < |Run(EMPTY_BOARD, s, start, steps).0.claims|
    ensures var c := Run(EMPTY_BOARD, s, start, steps).0.claims[i];
            c.expiresAt - c.claimedAt >= 30 * TICKS_PER_SECOND
  {
    RunKeepsSound(EMPTY_BOARD, s, start, steps);
    assert Run(EMPTY_BOARD, s, start, steps).0.claims[i].claimId == i;
  }

  /** Over every run, no moment lies in two claims of one task. */
  lemma LeaseExclusion(s: Settings, start: Time, steps: seq<Timed>, i: nat, j: nat, moment: Time)
    requires var b := Run(EMPTY_BOARD, s, start, steps).0;
             i < |b.claims| && j < |b.claims| && i != j && b.claims[i].taskId == b.claims[j].taskId
    ensures var b := Run(EMPTY_BOARD, s, start, steps).0;
            !(b.claims[i].claimedAt <= moment < EndOf(b.claims[i])
              && b.claims[j].claimedAt <= moment < EndOf(b.claims[j]))
  {
    RunKeepsSound(EMPTY_BOARD, s, start, steps);
    var b := Run(EMPTY_BOARD, s, start, steps).0;
    assert b.claims[i].claimId == i;
    if i < j {
      assert EndOf(b.claims[i]) <= b.claims[j].claimedAt;
    } else {
      assert EndOf(b.claims[j]) <= b.claims[i].claimedAt;
    }
  }

  lemma ActiveIsClaimedNow(b: Board, now: Time, taskId: Id)
    requires Sound(b, now) && HasActiveClaim(b, taskId, now)
    ensures taskId in b.catalog.tasks && b.catalog.tasks[taskId].status == Claimed
  {
    var c :| c in b.claims && IsActive(c, taskId, now);
    assert IsActive(c, c.taskId, now);
  }

  /** At any moment of any run, a task with an active claim has status `claimed`. */
  lemma ActiveClaimImpliesClaimed(s: Settings, start: Time, steps: seq<Timed>, taskId: Id, now: Time)
    requires var (b, clock) := Run(EMPTY_BOARD, s, start, steps); clock <= now && HasActiveClaim(b, taskId, now)
    ensures var b := Run(EMPTY_BOARD, s, start, steps).0;
            taskId in b.catalog.tasks && b.catalog.tasks[taskId].status == Claimed
  {
    RunKeepsSound(EMPTY_BOARD, s, start, steps);
    var (b, clock) := Run(EMPTY_BOARD, s, start, steps);
    SoundLater(b, clock, now);
    ActiveIsClaimedNow(b, now, taskId);
  }

  /** While a lease is live, nobody else claims the task and only its holder releases or completes it. */
  lemma OnlyTheHolderEndsALease(b: Board, s: Settings, now: Time, held: ClaimRow, c: Command)
    requires Sound(b, now) && held in b.claims && IsActive(held, held.taskId, now)
    requires (c.Claim? || c.Release? || c.Complete?) && c.taskId == held.taskId
    ensures Step(b, s, c, now).Ok? ==> !c.Claim? && c.actor == held.actor
    ensures c.Claim? && b.catalog.tasks[held.taskId].workspace == c.workspace ==> Step(b, s, c, now) == Err(Conflict)
    ensures !c.Claim? && c.actor == held.actor && b.catalog.tasks[held.taskId].workspace == c.workspace ==>
            Step(b, s, c, now).Ok?
  {
    var fetched := FetchActiveClaim(b.claims, held.taskId, now).value;
    var i :| 0 <= i < |b.claims| && b.claims[i] == held;
    var j :| 0 <= j < |b.claims| && b.claims[j] == fetched;
    ActiveClaimIsUnique(b, now, held.taskId, i, j);
  }

  // ---------------------------------------------------------------------------------------------
  // What an expired lease leaves behind
  // ---------------------------------------------------------------------------------------------

  ghost predicate Revives(c: Command, taskId: Id) {
    (c.Claim? || c.Complete?) && c.taskId == taskId
  }

  /**
   * A lease that expires leaves its task `claimed`: until someone claims that very task again or
   * completes it, no command of any run makes it open, so no listing of ready tasks shows it.
   */
  lemma {:induction false} ExpiredLeaseStaysClaimed(b: Board, s: Settings, clock: Time, steps: seq<Timed>, taskId: Id)
    requires taskId in b.catalog.tasks && b.catalog.tasks[taskId].status == Claimed
    requires !HasActiveClaim(b, taskId, clock)
    requires forall k | 0 <= k < |steps| :: !Revives(steps[k].command, taskId)
    ensures var (end, now) := Run(b, s, clock, steps);
            && taskId in end.catalog.tasks && end.catalog.tasks[taskId].status == Claimed
            && !HasActiveClaim(end, taskId, now)
            && (forall workspace, f: Filters | f.readyOnly :: !Matches(end.catalog, workspace, f, taskId))
    decreases |steps|
  {
    if steps != [] {
      var now, c := clock + steps[0].wait, steps[0].command;
      assert !Revives(c, taskId);
      forall row | row in b.claims ensures !IsActive(row, taskId, now) { assert !IsActive(row, taskId, clock); }
      var r := Step(b, s, c, now);
      if r.Ok? {
        assert r.value.catalog.tasks[taskId].status == Claimed;
        forall row | row in r.value.claims ensures !IsActive(row, taskId, now) {
          var i :| 0 <= i < |r.value.claims| && r.value.claims[i] == row;
          if i < |b.claims| { assert b.claims[i] in b.claims; }
        }
      }
      forall k | 0 <= k < |steps[1..]| ensures !Revives(steps[1..][k].command, taskId) {
        assert steps[1..][k] == steps[k + 1];
      }
      ExpiredLeaseStaysClaimed(if r.Ok? then r.value else b, s, now, steps[1..], taskId);
    }
  }

  /** Once its lease has expired, not even the former holder can release the task. */
  lemma ExpiredLeaseCannotBeReleased(b: Board, workspace: string, actor: string, taskId: Id, now: Time)
    requires InWorkspace(b.catalog.tasks, taskId, workspace) && !HasActiveClaim(b, taskId, now)
    ensures ReleaseTask(b, workspace, actor, taskId, now) == Err(Conflict)
  {
  }

  lemma RunOneMore(b: Board, s: Settings, clock: Time, step: Timed, rest: seq<Timed>, next: Board)
    requires Step(b, s, step.command, clock + step.wait) == Ok(next)
    ensures Run(b, s, clock, [step] + rest) == Run(next, s, clock + step.wait, rest)
  {
    assert ([step] + rest)[1..] == rest;
  }

  /** A catalog with one open task. */
  function OneTask(row: TaskRow): Catalog { Catalog(map[1 := row], {}, map[]) }

  const OFFERED := TaskRow("w", "title", "details", Open, None, "", None, [], 0, 0)
  const OFFER := Timed(0, Reshape(OneTask(OFFERED)))
  const SETTINGS := Settings(300, 1_000_000 * TICKS_PER_SECOND)

  /** A run that gets there: offer a task, claim it for 30 seconds, let 30 seconds pass. */
  lemma LeaseExpiresUnreleased() returns (steps: seq<Timed>)
    ensures var (b, now) := Run(EMPTY_BOARD, SETTINGS, 0, steps);
            && 1 in b.catalog.tasks && b.catalog.tasks[1].status == Claimed
            && !HasActiveClaim(b, 1, now)
            && |b.claims| == 1 && b.claims[0].taskId == 1 && b.claims[0].expiresAt == now
               && b.claims[0].releasedAt == None
  {
    var claim, wait := Timed(0, Claim("w", "a", 1, Some(30), true)), Timed(30 * TICKS_PER_SECOND, Idle);
    steps := [OFFER] + ([claim] + ([wait] + []));
    var offered := Board(OneTask(OFFERED), [], []);
    var (claimed, _) := PersistTaskClaim(offered, SETTINGS, "w", "a", 1, Some(30), true, 0).value;
    RunOneMore(EMPTY_BOARD, SETTINGS, 0, OFFER, [claim] + ([wait] + []), offered);
    RunOneMore(offered, SETTINGS, 0, claim, [wait] + [], claimed);
    RunOneMore(claimed, SETTINGS, 0, wait, [], claimed);
  }

  /** A run in which a completed task is claimed again. */
  lemma CompletedTaskIsClaimedAgain() returns (steps: seq<Timed>, last: Timed)
    ensures var before := Run(EMPTY_BOARD, SETTINGS, 0, steps).0;
            var (after, now) := Run(EMPTY_BOARD, SETTINGS, 0, steps + [last]);
            && last.command.Claim? && last.command.taskId == 1
            && 1 in before.catalog.tasks && before.catalog.tasks[1].status == Completed
            && 1 in after.catalog.tasks && after.catalog.tasks[1].status == Claimed && HasActiveClaim(after, 1, now)
  {
    var complete := Timed(0, Complete("w", "a", 1));
    last := Timed(0, Claim("w", "b", 1, None, true));
    steps := [OFFER] + ([complete] + []);
    var offered := Board(OneTask(OFFERED), [], []);
    var completed := CompleteTask(offered, "w", "a", 1, 0).value;
    var (claimed, row) := PersistTaskClaim(completed, SETTINGS, "w", "b", 1, None, true, 0).value;
    RunOneMore(EMPTY_BOARD, SETTINGS, 0, OFFER, [complete] + [], offered);
    RunOneMore(offered, SETTINGS, 0, complete, [], completed);
    assert steps + [last] == [OFFER] + ([complete] + ([last] + []));
    RunOneMore(EMPTY_BOARD, SETTINGS, 0, OFFER, [complete] + ([last] + []), offered);
    RunOneMore(offered, SETTINGS, 0, complete, [last] + [], completed);
    RunOneMore(completed, SETTINGS, 0, last, [], claimed);
    assert row in claimed.claims && IsActive(row, 1, 0);
  }

  /** `completed` is not terminal: an unclaimed task of any status can be claimed, and nothing else decides. */
  lemma ClaimIgnoresStatus(b: Board, s: Settings, workspace: string, actor: string, taskId: Id, lease: Option<int>,
      named: bool, now: Time)
    ensures PersistTaskClaim(b, s, workspace, actor, taskId, lease, named, now).Ok?
       <==> && InWorkspace(b.catalog.tasks, taskId, workspace)
            && !HasActiveClaim(b, taskId, now)
            && CalculateClaimExpiry(now, NormalizedLeaseSeconds(lease, s), s).Some?
    ensures var r := PersistTaskClaim(b, s, workspace, actor, taskId, lease, named, now);
            r.Ok? ==> r.value.0.catalog.tasks[taskId].status == Claimed && HasActiveClaim(r.value.0, taskId, now)
  {
    var r := PersistTaskClaim(b, s, workspace, actor, taskId, lease, named, now);
    if r.Ok? { assert r.value.1 in r.value.0.claims && IsActive(r.value.1, taskId, now); }
  }
}
