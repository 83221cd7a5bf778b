/** The claim tables updated in place, and `claim_next` over a list read before its transactions. */
module ClaimStore {
  import opened Common
  import opened Tables
  import opened Listing
  import opened Claims

  class Store {
    var catalog: Catalog
    var claims: seq<ClaimRow>
    var events: seq<Event>
    /** The time of the latest transaction. */
    var clock: Time

    ghost predicate Valid()
      reads this
    {
      Sound(Contents(), clock)
    }

    ghost function Contents(): Board
      reads this
    {
      Board(catalog, claims, events)
    }

    constructor (start: Time)
      ensures Valid() && Contents() == EMPTY_BOARD && clock == start
    {
      catalog, claims, events := Catalog(map[], {}, map[]), [], [];
      clock := start;
    }

    method EnsureTaskIsUnclaimed(taskId: Id, now: Time) returns (r: Result<(), Error>)
      ensures r == if HasActiveClaim(Contents(), taskId, now) then Err(Conflict) else Ok(())
    {
      var active := FetchActiveClaim(claims, taskId, now);
      if active.Some? { return Err(Conflict); }
      r := Ok(());
    }

    method SetStatus(taskId: Id, status: Status, now: Time)
      requires taskId in catalog.tasks
      modifies this`catalog
      ensures catalog == WithStatus(old(catalog), taskId, status, now)
    {
      var row := catalog.tasks[taskId].(status := status, updatedAt := now);
      catalog := catalog.(tasks := catalog.tasks[taskId := row]);
    }

    method PersistClaim(s: Settings, workspace: string, actor: string, taskId: Id, lease: Option<int>, named: bool,
        now: Time)
      returns (r: Result<ClaimRow, Error>)
      requires Valid() && clock <= now
      modifies this
      ensures Valid() && clock == now
      ensures match PersistTaskClaim(old(Contents()), s, workspace, actor, taskId, lease, named, now)
              case Err(e) => r == Err(e) && Contents() == old(Contents())
              case Ok((next, row)) => r == Ok(row) && Contents() == next
      ensures r.Ok? ==>
                && Grants(s, Claim(workspace, actor, taskId, lease, named), now, r.value)
                && OnlyStatusChanges(old(catalog), catalog, taskId, Claimed, now)
    {
      ClaimGrants(Contents(), s, workspace, actor, taskId, lease, named, now);
      SoundLater(Contents(), clock, now);
      ClaimKeepsSound(Contents(), s, workspace, actor, taskId, lease, named, now);
      clock := now;
      if !InWorkspace(catalog.tasks, taskId, workspace) { return Err(NotFound); }
      var unclaimed := EnsureTaskIsUnclaimed(taskId, now);
      if unclaimed.Err? { return Err(unclaimed.error); }
      var expiry := CalculateClaimExpiry(now, NormalizedLeaseSeconds(lease, s), s);
      if expiry.None? { return Err(BadRequest); }
      events := events + [Event(TaskClaimed, workspace, actor, ClaimPayload(taskId, named), now)];
      var row := ClaimRow(|claims|, taskId, workspace, actor, now, expiry.value, None);
      claims := claims + [row];
      SetStatus(taskId, Claimed, now);
      r := Ok(row);
    }

    method Release(workspace: string, actor: string, taskId: Id, now: Time) returns (r: Result<(), Error>)
      requires Valid() && clock <= now
      modifies this
      ensures Valid() && clock == now
      ensures match ReleaseTask(old(Contents()), workspace, actor, taskId, now)
              case Err(e) => r == Err(e) && Contents() == old(Contents())
              case Ok(next) => r == Ok(()) && Contents() == next
      ensures r.Ok? ==>
                && OnlyActiveEnd(old(claims), claims, taskId, now)
                && OnlyStatusChanges(old(catalog), catalog, taskId, Open, now)
    {
      SoundLater(Contents(), clock, now);
      ReleaseDoes(Contents(), SETTINGS, Command.Release(workspace, actor, taskId), now);
      ReleaseKeepsSound(Contents(), workspace, actor, taskId, now);
      clock := now;
      if !InWorkspace(catalog.tasks, taskId, workspace) { return Err(NotFound); }
      var claim := FetchActiveClaim(claims, taskId, now);
      if claim.None? { return Err(Conflict); }
      if claim.value.actor != actor { return Err(Conflict); }
      events := events + [Event(TaskReleased, workspace, actor, Some(taskId), now)];
      claims := ReleaseById(claims, claim.value.claimId, now);
      SetStatus(taskId, Open, now);
      r := Ok(());
    }

    method Complete(workspace: string, actor: string, taskId: Id, now: Time) returns (r: Result<(), Error>)
      requires Valid() && clock <= now
      modifies this
      ensures Valid() && clock == now
      ensures match CompleteTask(old(Contents()), workspace, actor, taskId, now)
              case Err(e) => r == Err(e) && Contents() == old(Contents())
              case Ok(next) => r == Ok(()) && Contents() == next
      ensures r.Ok? ==>
                && OnlyActiveEnd(old(claims), claims, taskId, now)
                && OnlyStatusChanges(old(catalog), catalog, taskId, Completed, now)
    {
      SoundLater(Contents(), clock, now);
      CompleteDoes(Contents(), SETTINGS, Command.Complete(workspace, actor, taskId), now);
      CompleteKeepsSound(Contents(), workspace, actor, taskId, now);
      clock := now;
      var claim := FetchActiveClaim(claims, taskId, now);
      if claim.Some? && claim.value.actor != actor { return Err(Conflict); }
      var savedCatalog, savedClaims, savedEvents := catalog, claims, events;
      events := events + [Event(TaskCompleted, workspace, actor, Some(taskId), now)];
      claims := ReleaseActive(claims, taskId, now);
      if taskId in catalog.tasks { SetStatus(taskId, Completed, now); }
      if !InWorkspace(catalog.tasks, taskId, workspace) {
        // the read-back fails and the transaction is dropped
        catalog, claims, events := savedCatalog, savedClaims, savedEvents;
        return Err(NotFound);
      }
      r := Ok(());
    }

    /** Other handlers' committed transactions. */
    method Others(s: Settings, steps: seq<Timed>) returns (now: Time)
      modifies this
      requires Valid()
      ensures Valid() && now == clock
      ensures (Contents(), now) == Run(old(Contents()), s, old(clock), steps)
    {
      RunKeepsSound(Contents(), s, clock, steps);
      var end := Run(Board(catalog, claims, events), s, clock, steps);
      catalog, claims, events := end.0.catalog, end.0.claims, end.0.events;
      clock := end.1;
      now := end.1;
    }

    /**
     * `claim_next_task` without an idempotency key, over candidates listed earlier. Before each of its
     * transactions the other handlers may commit any commands: `turns[k]` comes before the k-th.
     */
    method ClaimNextTask(s: Settings, workspace: string, actor: string, lease: Option<int>, candidates: seq<Id>,
        turns: seq<seq<Timed>>)
      returns (r: Result<Option<ClaimRow>, Error>)
      requires Valid() && |turns| == |candidates|
      modifies this
      ensures Valid()
      ensures ClaimNextOutcome(
                Attempt(old(Contents()), old(clock), s, workspace, actor, lease, candidates, turns), r, Contents())
    {
      ghost var attempt := Attempt(Contents(), clock, s, workspace, actor, lease, candidates, turns);
      ghost var at := (Contents(), clock);
      for n := 0 to |candidates|
        invariant Valid() && at == (Contents(), clock)
        invariant at == BeforeTurn(attempt, n)
        invariant RefusedBefore(attempt, n)
      {
        var claimed := ClaimCandidate(s, workspace, actor, lease, candidates[n], turns[n], attempt, n);
        if claimed.Ok? {
          r := Ok(Some(claimed.value));
          FirstUnclaimedDecides(attempt, n, Contents(), r);
          return;
        }
        if claimed.error != Conflict {
          r := Err(claimed.error);
          FirstUnclaimedDecides(attempt, n, Contents(), r);
          return;
        }
        at := BeforeTurn(attempt, n + 1);
      }
      assert turns[..|candidates|] == turns;
      RefusedOneByOne(attempt, |candidates|);
      r := Ok(None);
    }

    /** One transaction of the loop, after what others commit before it. */
    method ClaimCandidate(s: Settings, workspace: string, actor: string, lease: Option<int>, candidate: Id,
        turn: seq<Timed>, ghost attempt: Attempt, ghost n: nat)
      returns (claimed: Result<ClaimRow, Error>)
      requires Valid() && n < |attempt.turns| == |attempt.candidates|
      requires attempt.settings == s && attempt.workspace == workspace && attempt.actor == actor
               && attempt.lease == lease
      requires attempt.candidates[n] == candidate && attempt.turns[n] == turn
      requires (Contents(), clock) == BeforeTurn(attempt, n)
      modifies this
      ensures Valid()
      ensures claimed.Ok? ==> TurnOutcome(attempt, n) == Ok((Contents(), claimed.value))
      ensures claimed.Err? ==>
              TurnOutcome(attempt, n) == Err(claimed.error) && (Contents(), clock) == AtTurn(attempt, n)
    {
      RunAppend(attempt.board, s, attempt.clock, Flatten(attempt.turns[..n]), turn);
      assert attempt.turns[..n + 1][..n] == attempt.turns[..n];
      var now := Others(s, turn);
      assert (Contents(), now) == AtTurn(attempt, n);
      claimed := PersistClaim(s, workspace, actor, candidate, lease, false, now);
    }
  }

  // ---------------------------------------------------------------------------------------------
  // claim_next
  // ---------------------------------------------------------------------------------------------

  /** One call of `claim_next`: where it starts, what it asks for, and what others commit before each turn. */
  datatype Attempt = Attempt(
    board: Board,
    clock: Time,
    settings: Settings,
    workspace: string,
    actor: string,
    lease: Option<int>,
    candidates: seq<Id>,
    turns: seq<seq<Timed>>)

  function Flatten(turns: seq<seq<Timed>>): seq<Timed> {
    if turns == [] then [] else Flatten(turns[..|turns| - 1]) + turns[|turns| - 1]
  }

  /** The board and time after what others commit before the first k transactions: failed turns leave no trace. */
  function BeforeTurn(a: Attempt, k: nat): (Board, Time)
    requires k <= |a.turns|
  {
    Run(a.board, a.settings, a.clock, Flatten(a.turns[..k]))
  }

  /** The board and time that the k-th transaction sees. */
  function AtTurn(a: Attempt, k: nat): (Board, Time)
    requires k < |a.turns|
  {
    BeforeTurn(a, k + 1)
  }

  function TurnOutcome(a: Attempt, k: nat): Result<(Board, ClaimRow), Error>
    requires k < |a.turns| == |a.candidates|
  {
    var (board, now) := AtTurn(a, k);
    PersistTaskClaim(board, a.settings, a.workspace, a.actor, a.candidates[k], a.lease, false, now)
  }

  /** The first n turns were all refused as claimed. */
  ghost predicate RefusedBefore(a: Attempt, n: nat)
    requires n <= |a.turns| == |a.candidates|
  {
    n == 0 || (RefusedBefore(a, n - 1) && TurnOutcome(a, n - 1) == Err(Conflict))
  }

  lemma {:induction false} RefusedAt(a: Attempt, n: nat, i: nat)
    requires i < n <= |a.turns| == |a.candidates| && RefusedBefore(a, n)
    ensures TurnOutcome(a, i) == Err(Conflict)
    decreases n
  {
    if i < n - 1 { RefusedAt(a, n - 1, i); }
  }

  lemma RefusedOneByOne(a: Attempt, n: nat)
    requires n <= |a.turns| == |a.candidates| && RefusedBefore(a, n)
    ensures forall i | 0 <= i < n :: TurnOutcome(a, i) == Err(Conflict)
  {
    forall i | 0 <= i < n ensures TurnOutcome(a, i) == Err(Conflict) { RefusedAt(a, n, i); }
  }

  /** The first turn that is not refused as already claimed decides the call. */
  ghost predicate ClaimNextOutcome(a: Attempt, r: Result<Option<ClaimRow>, Error>, end: Board)
    requires |a.turns| == |a.candidates|
  {
    match r
    case Ok(None) =>
      && (forall i | 0 <= i < |a.candidates| :: TurnOutcome(a, i) == Err(Conflict))
      && end == Run(a.board, a.settings, a.clock, Flatten(a.turns)).0
    case Ok(Some(row)) =>
      exists k | 0 <= k < |a.candidates| ::
        TurnOutcome(a, k) == Ok((end, row)) && forall i | 0 <= i < k :: TurnOutcome(a, i) == Err(Conflict)
    case Err(e) =>
      exists k | 0 <= k < |a.candidates| ::
        && TurnOutcome(a, k) == Err(e) && e != Conflict && end == AtTurn(a, k).0
        && forall i | 0 <= i < k :: TurnOutcome(a, i) == Err(Conflict)
  }

  lemma FirstUnclaimedDecides(a: Attempt, n: nat, end: Board, r: Result<Option<ClaimRow>, Error>)
    requires n < |a.turns| == |a.candidates| && RefusedBefore(a, n) && r != Ok(None) && r != Err(Conflict)
    requires r.Ok? ==> TurnOutcome(a, n) == Ok((end, r.value.value))
    requires r.Err? ==> TurnOutcome(a, n) == Err(r.error) && end == AtTurn(a, n).0
    ensures ClaimNextOutcome(a, r, end)
  {
    RefusedOneByOne(a, n);
  }

  lemma {:induction false} RunAppend(b: Board, s: Settings, clock: Time, first: seq<Timed>, second: seq<Timed>)
    ensures Run(b, s, clock, first + second)
         == var (mid, now) := Run(b, s, clock, first); Run(mid, s, now, second)
    decreases |first|
  {
    if first == [] {
      assert first + second == second;
    } else {
      var all := first + second;
      assert all[0] == first[0] && all[1..] == first[1..] + second;
      var now := clock + first[0].wait;
      var r := Step(b, s, first[0].command, now);
      var next := if r.Ok? then r.value else b;
      assert Run(b, s, clock, all) == Run(next, s, now, first[1..] + second);
      assert Run(b, s, clock, first) == Run(next, s, now, first[1..]);
      RunAppend(next, s, now, first[1..], second);
    }
  }

  /** A turn is refused as claimed exactly when its candidate has an active claim at that turn. */
  lemma RefusedMeansClaimed(a: Attempt, k: nat)
    requires k < |a.turns| == |a.candidates|
    ensures var (board, now) := AtTurn(a, k);
            TurnOutcome(a, k) == Err(Conflict)
            <==> && InWorkspace(board.catalog.tasks, a.candidates[k], a.workspace)
                 && HasActiveClaim(board, a.candidates[k], now)
  {
  }

  /**
   * Whatever others commit in between, a call without error takes the earliest candidate that had no
   * active claim at its own turn, adding one claim and one event to what that turn saw; it returns
   * nothing, and adds nothing, exactly when every candidate had one.
   */
  lemma ClaimNextOverStaleList(a: Attempt, r: Result<Option<ClaimRow>, Error>, end: Board)
    requires |a.turns| == |a.candidates| && ClaimNextOutcome(a, r, end)
    requires r.Ok?
    ensures r == Ok(None) <==>
            forall i | 0 <= i < |a.candidates| :: HasActiveClaim(AtTurn(a, i).0, a.candidates[i], AtTurn(a, i).1)
    ensures r == Ok(None) ==> end == Run(a.board, a.settings, a.clock, Flatten(a.turns)).0
    ensures r.value.Some? ==>
            exists k | 0 <= k < |a.candidates| ::
              && !HasActiveClaim(AtTurn(a, k).0, a.candidates[k], AtTurn(a, k).1)
              && (forall i | 0 <= i < k :: HasActiveClaim(AtTurn(a, i).0, a.candidates[i], AtTurn(a, i).1))
              && Takes(a, k, end, r.value.value)
  {
    forall i | 0 <= i < |a.candidates| && TurnOutcome(a, i) == Err(Conflict)
      ensures HasActiveClaim(AtTurn(a, i).0, a.candidates[i], AtTurn(a, i).1)
    {
      RefusedMeansClaimed(a, i);
    }
    if r.value.Some? {
      var k :| 0 <= k < |a.candidates| && TurnOutcome(a, k) == Ok((end, r.value.value))
            && forall i | 0 <= i < k :: TurnOutcome(a, i) == Err(Conflict);
      TurnTakes(a, k, end, r.value.value);
    }
  }

  /** `row` is the claim that the k-th turn adds, and `end` the board it leaves. */
  ghost predicate Takes(a: Attempt, k: nat, end: Board, row: ClaimRow)
    requires k < |a.turns| == |a.candidates|
  {
    var (board, now) := AtTurn(a, k);
    && Grants(a.settings, Claim(a.workspace, a.actor, a.candidates[k], a.lease, false), now, row)
    && end.claims == board.claims + [row]
    && end.events == board.events + [Event(TaskClaimed, a.workspace, a.actor, None, now)]
    && a.candidates[k] in board.catalog.tasks
    && end.catalog == WithStatus(board.catalog, a.candidates[k], Claimed, now)
  }

  lemma TurnTakes(a: Attempt, k: nat, end: Board, row: ClaimRow)
    requires k < |a.turns| == |a.candidates| && TurnOutcome(a, k) == Ok((end, row))
    ensures Takes(a, k, end, row) && !HasActiveClaim(AtTurn(a, k).0, a.candidates[k], AtTurn(a, k).1)
  {
    var (board, now) := AtTurn(a, k);
    ClaimIgnoresStatus(board, a.settings, a.workspace, a.actor, a.candidates[k], a.lease, false, now);
    ClaimGrants(board, a.settings, a.workspace, a.actor, a.candidates[k], a.lease, false, now);
  }

  /** What `claim_next` asks the listing for. */
  function ReadyFilters(epicId: Option<Id>, wanted: Option<string>, owner: Option<string>,
      priority: Option<string>): Filters {
    Filters(epicId, wanted, owner, priority, true, Some("open"))
  }

  /** `claim_next` asks for open tasks without unfinished dependencies, and passes on every filter it is given. */
  lemma ReadyFiltersKeepAll(c: Catalog, workspace: string, epicId: Option<Id>, wanted: Option<string>,
      owner: Option<string>, priority: Option<string>, id: Id)
    ensures Matches(c, workspace, ReadyFilters(epicId, wanted, owner, priority), id)
       <==> && TaskIsReady(c, id) == Ok(true)
            && Matches(c, workspace, Filters(epicId, wanted, owner, priority, false, None), id)
    ensures ReadyFilters(epicId, wanted, owner, priority).readyOnly
  {
    ReadinessAgrees(c, id);
  }

  ghost predicate OnlyWaits(steps: seq<Timed>) {
    forall i | 0 <= i < |steps| :: steps[i].command.Idle?
  }

  lemma {:induction false} WaitingChangesNothing(b: Board, s: Settings, clock: Time, steps: seq<Timed>)
    requires OnlyWaits(steps)
    ensures var (end, now) := Run(b, s, clock, steps); end == b && clock <= now
    decreases |steps|
  {
    if steps != [] { WaitingChangesNothing(b, s, clock + steps[0].wait, steps[1..]); }
  }

  /**
   * With no other writer, however long its transactions are apart, the call takes the first listed task,
   * which no ready task precedes; it returns nothing exactly when no task is ready. This rests on active
   * claims implying `claimed`.
   */
  lemma ClaimNextTakesTopReadyTask(a: Attempt, f: Filters, r: Result<Option<ClaimRow>, Error>, end: Board)
    requires Sound(a.board, a.clock)
    requires |a.turns| == |a.candidates| && (forall i | 0 <= i < |a.turns| :: OnlyWaits(a.turns[i]))
    requires f == ReadyFilters(f.epicId, f.wanted, f.owner, f.priority)
    requires IsListing(a.board.catalog, a.workspace, f, Some(25), a.candidates)
    requires a.candidates != [] ==>
               CalculateClaimExpiry(AtTurn(a, 0).1, NormalizedLeaseSeconds(a.lease, a.settings), a.settings).Some?
    requires ClaimNextOutcome(a, r, end)
    ensures r == Ok(None) <==> forall id :: !Matches(a.board.catalog, a.workspace, f, id)
    ensures r.Ok? && (r.value.Some? ==>
              var taken := r.value.value.taskId;
              && Matches(a.board.catalog, a.workspace, f, taken)
              && forall id | Matches(a.board.catalog, a.workspace, f, id) ::
                   !Before(a.board.catalog, true, a.board.catalog.tasks[id], a.board.catalog.tasks[taken]))
  {
    if a.candidates != [] {
      assert a.candidates[0] in a.candidates;
      OpenTaskIsTaken(a, a.candidates[0]);
    }
  }

  lemma OpenTaskIsTaken(a: Attempt, top: Id)
    requires Sound(a.board, a.clock) && InWorkspace(a.board.catalog.tasks, top, a.workspace)
    requires a.board.catalog.tasks[top].status == Open
    requires |a.turns| == |a.candidates| > 0 && OnlyWaits(a.turns[0]) && a.candidates[0] == top
    requires CalculateClaimExpiry(AtTurn(a, 0).1, NormalizedLeaseSeconds(a.lease, a.settings), a.settings).Some?
    ensures TurnOutcome(a, 0).Ok? && TurnOutcome(a, 0).value.1.taskId == top
  {
    assert Flatten(a.turns[..1]) == a.turns[0] by { assert a.turns[..1] == [a.turns[0]] && Flatten([]) == []; }
    WaitingChangesNothing(a.board, a.settings, a.clock, a.turns[0]);
    var now := AtTurn(a, 0).1;
    SoundLater(a.board, a.clock, now);
    if HasActiveClaim(a.board, top, now) { ActiveIsClaimedNow(a.board, now, top); }
    ClaimIgnoresStatus(a.board, a.settings, a.workspace, a.actor, top, a.lease, false, now);
  }
}
