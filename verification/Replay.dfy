/** Catch-up of the graph projection: batches of pending events behind a stored cursor. */
module Replay {
  import opened Common
  import opened EventLog
  import opened Sorting

  const U64_MAX: nat := 0xFFFF_FFFF_FFFF_FFFF

  function SaturatingAdd(a: nat, b: nat): nat {
    if a + b > U64_MAX then U64_MAX else a + b
  }

  lemma SaturatingSums(a: nat, b: nat)
    ensures SaturatingAdd(SaturatingAdd(0, a), b) == SaturatingAdd(0, a + b)
  {
  }

  /** Whether the n-th call of the projector, on an event, succeeds; payload errors, graph errors and timeouts alike. */
  type Projector = (nat, EventRow) -> bool

  /** From the `first`-th call on, the projector accepts these events one after the other. */
  ghost predicate Accepts(project: Projector, first: nat, events: seq<EventRow>) {
    forall i | 0 <= i < |events| :: project(first + i, events[i])
  }

  /** It accepts the first `m` of these events and fails on the next. */
  ghost predicate FailsAt(project: Projector, first: nat, events: seq<EventRow>, m: nat) {
    m < |events| && Accepts(project, first, events[..m]) && !project(first + m, events[m])
  }

  /** A catch-up run over a log that no longer grows, while no request handler writes the cursor. */
  class Replayer {
    const log: set<EventRow>
    const project: Projector
    var cursor: Option<Cursor>
    /** The events whose projection has succeeded, in the order of the calls. */
    var projected: seq<EventRow>
    var calls: nat

    constructor (log: set<EventRow>, cursor: Option<Cursor>, project: Projector)
      ensures this.log == log && this.cursor == cursor && this.project == project
      ensures projected == [] && calls == 0
    {
      this.log, this.cursor, this.project := log, cursor, project;
      projected, calls := [], 0;
    }

    method ProjectEvent(e: EventRow) returns (r: Result<(), Error>)
      modifies this`projected, this`calls
      ensures calls == old(calls) + 1
      ensures r.Ok? <==> project(old(calls), e)
      ensures projected == if r.Ok? then old(projected) + [e] else old(projected)
    {
      calls := calls + 1;
      if !project(calls - 1, e) { return Err(Internal); }
      projected := projected + [e];
      r := Ok(());
    }

    /** The first failure stops the batch. */
    method ReplayEvents(events: seq<EventRow>) returns (r: Result<(), Error>)
      modifies this`projected, this`calls
      ensures r.Ok? ==>
                projected == old(projected) + events && calls == old(calls) + |events|
                  && Accepts(project, old(calls), events)
      ensures r.Err? ==> exists m | 0 <= m < |events| ::
                projected == old(projected) + events[..m] && FailsAt(project, old(calls), events, m)
    {
      for n := 0 to |events|
        invariant projected == old(projected) + events[..n] && calls == old(calls) + n
        invariant Accepts(project, old(calls), events[..n])
      {
        assert events[..n + 1] == events[..n] + [events[n]];
        var one := ProjectEvent(events[n]);
        if one.Err? { return Err(one.error); }
      }
      assert events[..|events|] == events;
      r := Ok(());
    }

    method AdvanceProjectionCursor(events: seq<EventRow>)
      modifies this`cursor
      ensures cursor == if events == [] then old(cursor) else Some(CursorOf(events[|events| - 1]))
    {
      if events == [] { return; }
      cursor := Some(CursorOf(events[|events| - 1]));
    }

    /** `replay_graph_projection_batch`: the cursor moves only after the whole batch. */
    method ReplayBatch(limit: nat) returns (r: Result<nat, Error>)
      requires DistinctIds(log)
      modifies this
      ensures var batch := FetchAfterCursor(log, old(cursor), limit);
              && (r.Ok? ==>
                    && r.value == |batch|
                    && projected == old(projected) + batch
                    && calls == old(calls) + |batch| && Accepts(project, old(calls), batch)
                    && cursor == if batch == [] then old(cursor) else Some(CursorOf(batch[|batch| - 1])))
              && (r.Err? ==> cursor == old(cursor) && exists m | 0 <= m < |batch| ::
                    projected == old(projected) + batch[..m] && FailsAt(project, old(calls), batch, m))
    {
      var events := FetchEventRowsAfterCursor(log, cursor, limit);
      if events == [] { return Ok(0); }
      var replayed := ReplayEvents(events);
      if replayed.Err? { return Err(replayed.error); }
      AdvanceProjectionCursor(events);
      r := Ok(|events|);
    }

    /**
     * `catch_up_graph_projection`: for every batch size it ends, and it succeeds exactly when the projector
     * accepts every pending event. It has then projected each of them exactly once, in log order, and
     * returns their count. Otherwise it has projected those before the first one that failed, and the
     * cursor has passed none but projected events.
     */
    method CatchUp(limit: nat) returns (r: Result<nat, Error>)
      requires DistinctIds(log) && limit >= 1
      modifies this
      ensures var pending := Ordered(After(log, old(cursor)));
              && (r.Ok? ==>
                    && r.value == SaturatingAdd(0, |pending|)
                    && Accepts(project, old(calls), pending)
                    && projected == old(projected) + pending
                    && After(log, cursor) == {})
              && (r.Err? ==> Stopped(log, project, old(calls), pending, old(projected), projected, cursor))
    {
      var total := 0;
      ghost var pending := Ordered(After(log, cursor));
      ghost var first, before, done: nat := calls, projected, 0;
      assert before + pending[..0] == before && pending[0..] == pending;
      while true
        invariant CaughtUp(log, project, first, pending, before, projected, cursor, done) && calls == first + done
        invariant total == SaturatingAdd(0, done)
        decreases |pending| - done
      {
        var replayed := CatchUpBatch(limit, first, pending, before, done);
        if replayed.Err? { return Err(replayed.error); }
        SaturatingSums(done, replayed.value);
        total := SaturatingAdd(total, replayed.value);
        if replayed.value == 0 { break; }
        done := done + replayed.value;
      }
      r := Ok(total);
    }

    /** One more batch of a catch-up whose first `done` events are through. */
    method CatchUpBatch(limit: nat, ghost first: nat, ghost pending: seq<EventRow>, ghost before: seq<EventRow>,
        ghost done: nat)
      returns (r: Result<nat, Error>)
      requires DistinctIds(log) && limit >= 1
      requires CaughtUp(log, project, first, pending, before, projected, cursor, done) && calls == first + done
      modifies this
      ensures r.Ok? && r.value > 0 ==>
                && done + r.value <= |pending| && calls == first + done + r.value
                && CaughtUp(log, project, first, pending, before, projected, cursor, done + r.value)
      ensures r == Ok(0) ==>
                && done == |pending| && After(log, cursor) == {}
                && projected == before + pending && Accepts(project, first, pending)
      ensures r.Err? ==> Stopped(log, project, first, pending, before, projected, cursor)
    {
      ghost var at, soFar := cursor, projected;
      r := ReplayBatch(limit);
      if r.Err? {
        BatchStops(log, project, first, pending, before, soFar, projected, cursor, done, limit);
      } else if r.value > 0 {
        BatchCatchesUp(log, project, first, pending, before, soFar, at, done, limit, projected, cursor);
      } else {
        NothingLeft(log, project, first, pending, before, soFar, at, done, limit);
      }
    }
  }

  /** The first `done` pending events have been projected, and the cursor stands right behind them. */
  ghost predicate Progress(log: set<EventRow>, pending: seq<EventRow>, before: seq<EventRow>,
      projected: seq<EventRow>, cursor: Option<Cursor>, done: nat)
    requires DistinctIds(log)
  {
    done <= |pending| && projected == before + pending[..done] && Ordered(After(log, cursor)) == pending[done..]
  }

  ghost predicate AcceptsFirst(project: Projector, first: nat, pending: seq<EventRow>, done: nat) {
    done <= |pending| && Accepts(project, first, pending[..done])
  }

  ghost predicate CaughtUp(log: set<EventRow>, project: Projector, first: nat, pending: seq<EventRow>,
      before: seq<EventRow>, projected: seq<EventRow>, cursor: Option<Cursor>, done: nat)
    requires DistinctIds(log)
  {
    Progress(log, pending, before, projected, cursor, done) && AcceptsFirst(project, first, pending, done)
  }

  lemma BatchCatchesUp(log: set<EventRow>, project: Projector, first: nat, pending: seq<EventRow>,
      before: seq<EventRow>, projected: seq<EventRow>, cursor: Option<Cursor>, done: nat, limit: nat,
      projected': seq<EventRow>, cursor': Option<Cursor>)
    requires DistinctIds(log) && CaughtUp(log, project, first, pending, before, projected, cursor, done)
    requires var batch := FetchAfterCursor(log, cursor, limit);
             && batch != [] && projected' == projected + batch && cursor' == Some(CursorOf(batch[|batch| - 1]))
             && Accepts(project, first + done, batch)
    ensures var n := |FetchAfterCursor(log, cursor, limit)|;
            done + n <= |pending| && CaughtUp(log, project, first, pending, before, projected', cursor', done + n)
  {
    AcceptsBatch(log, project, first, pending, cursor, done, limit);
    ProgressOneBatch(log, pending, before, projected, cursor, done, limit, projected', cursor');
  }

  lemma BatchStops(log: set<EventRow>, project: Projector, first: nat, pending: seq<EventRow>, before: seq<EventRow>,
      projected: seq<EventRow>, projected': seq<EventRow>, cursor: Option<Cursor>, done: nat, limit: nat)
    requires DistinctIds(log) && CaughtUp(log, project, first, pending, before, projected, cursor, done)
    requires var batch := FetchAfterCursor(log, cursor, limit);
             exists m | 0 <= m < |batch| ::
               projected' == projected + batch[..m] && FailsAt(project, first + done, batch, m)
    ensures Stopped(log, project, first, pending, before, projected', cursor)
  {
    var batch := FetchAfterCursor(log, cursor, limit);
    var m :| 0 <= m < |batch| && projected' == projected + batch[..m] && FailsAt(project, first + done, batch, m);
    StopsThere(log, project, first, pending, before, projected, projected', cursor, done, limit, m);
  }

  lemma AcceptsBatch(log: set<EventRow>, project: Projector, first: nat, pending: seq<EventRow>, cursor: Option<Cursor>,
      done: nat, limit: nat)
    requires DistinctIds(log) && AcceptsFirst(project, first, pending, done)
    requires Ordered(After(log, cursor)) == pending[done..]
    requires Accepts(project, first + done, FetchAfterCursor(log, cursor, limit))
    ensures AcceptsFirst(project, first, pending, done + |FetchAfterCursor(log, cursor, limit)|)
  {
    BatchIsSlice(log, pending, cursor, done, limit);
    AcceptsFurther(project, first, pending, done, |FetchAfterCursor(log, cursor, limit)|);
  }

  lemma StopsThere(log: set<EventRow>, project: Projector, first: nat, pending: seq<EventRow>, before: seq<EventRow>,
      projected: seq<EventRow>, projected': seq<EventRow>, cursor: Option<Cursor>, done: nat, limit: nat, m: nat)
    requires DistinctIds(log) && Progress(log, pending, before, projected, cursor, done)
    requires AcceptsFirst(project, first, pending, done)
    requires FailsAt(project, first + done, FetchAfterCursor(log, cursor, limit), m)
    requires projected' == projected + FetchAfterCursor(log, cursor, limit)[..m]
    ensures FailsAt(project, first, pending, done + m)
    ensures StoppedInside(log, pending, before, projected', cursor, done + m)
  {
    BatchIsSlice(log, pending, cursor, done, limit);
    FailsFurtherOn(project, first, pending, done, |FetchAfterCursor(log, cursor, limit)|, m);
    StoppedAt(log, pending, before, projected, projected', cursor, done, limit, m);
  }

  lemma BatchIsSlice(log: set<EventRow>, pending: seq<EventRow>, cursor: Option<Cursor>, done: nat, limit: nat)
    requires DistinctIds(log) && done <= |pending| && Ordered(After(log, cursor)) == pending[done..]
    ensures var n := |FetchAfterCursor(log, cursor, limit)|;
            done + n <= |pending| && FetchAfterCursor(log, cursor, limit) == pending[done..done + n]
  {
    var n := |FetchAfterCursor(log, cursor, limit)|;
    assert pending[done..][..n] == pending[done..done + n];
  }

  lemma AcceptsFurther(project: Projector, first: nat, pending: seq<EventRow>, done: nat, n: nat)
    requires done + n <= |pending| && Accepts(project, first, pending[..done])
    requires Accepts(project, first + done, pending[done..done + n])
    ensures Accepts(project, first, pending[..done + n])
  {
    var events := pending[..done + n];
    forall i | 0 <= i < |events| ensures project(first + i, events[i]) {
      if i < done {
        assert pending[..done][i] == pending[i];
      } else {
        assert pending[done..done + n][i - done] == pending[i];
      }
    }
  }

  lemma FailsFurtherOn(project: Projector, first: nat, pending: seq<EventRow>, done: nat, n: nat, m: nat)
    requires done + n <= |pending| && Accepts(project, first, pending[..done])
    requires FailsAt(project, first + done, pending[done..done + n], m)
    ensures FailsAt(project, first, pending, done + m)
  {
    assert pending[done..done + n][..m] == pending[done..done + m];
    AcceptsFurther(project, first, pending, done, m);
  }

  lemma ProgressOneBatch(log: set<EventRow>, pending: seq<EventRow>, before: seq<EventRow>,
      projected: seq<EventRow>, cursor: Option<Cursor>, done: nat, limit: nat, projected': seq<EventRow>,
      cursor': Option<Cursor>)
    requires DistinctIds(log) && Progress(log, pending, before, projected, cursor, done)
    requires var batch := FetchAfterCursor(log, cursor, limit);
             batch != [] && projected' == projected + batch && cursor' == Some(CursorOf(batch[|batch| - 1]))
    ensures Progress(log, pending, before, projected', cursor', done + |FetchAfterCursor(log, cursor, limit)|)
  {
    var n := |FetchAfterCursor(log, cursor, limit)|;
    AdvancingDropsAPrefix(log, cursor, n);
    SlicesJoin(pending, done, n);
  }

  lemma SlicesJoin(pending: seq<EventRow>, done: nat, n: nat)
    requires done + n <= |pending|
    ensures pending[..done] + pending[done..][..n] == pending[..done + n]
    ensures pending[done..][n..] == pending[done + n..]
  {
  }

  lemma NothingLeft(log: set<EventRow>, project: Projector, first: nat, pending: seq<EventRow>, before: seq<EventRow>,
      projected: seq<EventRow>, cursor: Option<Cursor>, done: nat, limit: nat)
    requires DistinctIds(log) && limit >= 1 && CaughtUp(log, project, first, pending, before, projected, cursor, done)
    requires FetchAfterCursor(log, cursor, limit) == []
    ensures done == |pending| && After(log, cursor) == {}
    ensures projected == before + pending && Accepts(project, first, pending)
  {
    assert pending[..|pending|] == pending;
    forall e ensures e !in After(log, cursor) { assert e !in Ordered(After(log, cursor)); }
  }

  lemma StoppedAt(log: set<EventRow>, pending: seq<EventRow>, before: seq<EventRow>, projected: seq<EventRow>,
      projected': seq<EventRow>, cursor: Option<Cursor>, done: nat, limit: nat, m: nat)
    requires DistinctIds(log) && Progress(log, pending, before, projected, cursor, done)
    requires m < |FetchAfterCursor(log, cursor, limit)|
    requires projected' == projected + FetchAfterCursor(log, cursor, limit)[..m]
    ensures done + m < |pending| && StoppedInside(log, pending, before, projected', cursor, done + m)
  {
    assert FetchAfterCursor(log, cursor, limit)[..m] == pending[done..][..m];
    SlicesJoin(pending, done, m);
    assert projected' == before + pending[..done + m];
  }

  /** A failed catch-up: `m` pending events were projected, and the cursor has passed no more than those. */
  ghost predicate StoppedInside(log: set<EventRow>, pending: seq<EventRow>, before: seq<EventRow>,
      projected: seq<EventRow>, cursor: Option<Cursor>, m: nat)
    requires DistinctIds(log) && m < |pending|
  {
    && projected == before + pending[..m]
    && exists c | 0 <= c <= m :: Ordered(After(log, cursor)) == pending[c..]
  }

  /** The catch-up stopped at the first event that failed. */
  ghost predicate Stopped(log: set<EventRow>, project: Projector, first: nat, pending: seq<EventRow>,
      before: seq<EventRow>, projected: seq<EventRow>, cursor: Option<Cursor>)
    requires DistinctIds(log)
  {
    exists m | 0 <= m < |pending| ::
      FailsAt(project, first, pending, m) && StoppedInside(log, pending, before, projected, cursor, m)
  }

  /** So the cursor never passes an event that was not projected. */
  lemma CursorNeverPassesUnprojected(log: set<EventRow>, start: Option<Cursor>, before: seq<EventRow>,
      projected: seq<EventRow>, cursor: Option<Cursor>, m: nat, e: EventRow)
    requires DistinctIds(log) && m < |Ordered(After(log, start))|
    requires StoppedInside(log, Ordered(After(log, start)), before, projected, cursor, m)
    requires e in After(log, start) && e !in After(log, cursor)
    ensures e in projected[|before|..] && before <= projected
  {
    var pending := Ordered(After(log, start));
    var c :| 0 <= c <= m && Ordered(After(log, cursor)) == pending[c..];
    assert e in pending && e !in Ordered(After(log, cursor));
    InPrefix(pending, c, m, e);
  }

  lemma InPrefix(pending: seq<EventRow>, c: nat, m: nat, e: EventRow)
    requires c <= m <= |pending| && e in pending && e !in pending[c..]
    ensures e in pending[..m]
  {
    assert pending == pending[..c] + pending[c..] && pending[..c] == pending[..m][..c];
  }

  // ---------------------------------------------------------------------------------------------
  // Claims that the projector cannot read
  // ---------------------------------------------------------------------------------------------

  /** The projector of `task_claimed` reads the payload as the request of `claim_task`, which names a task. */
  predicate Unreadable(e: EventRow) {
    e.kind == "task_claimed" && e.taskId.None?
  }

  lemma OtherKindsAreReadable(e: EventRow)
    ensures e.kind != "task_claimed" || e.taskId.Some? ==> !Unreadable(e)
  {
  }

  /** Whatever else happens, no call reads an unreadable event; any other call may fail too. */
  ghost predicate RefusesUnreadable(project: Projector) {
    forall n, e | Unreadable(e) :: !project(n, e)
  }

  /** A projector on a good day: it fails on unreadable events only. */
  ghost predicate ProjectsReadable(project: Projector) {
    forall n, e | !Unreadable(e) :: project(n, e)
  }

  lemma UnreadableIsNotAccepted(log: set<EventRow>, start: Option<Cursor>, project: Projector, first: nat, e: EventRow)
    requires DistinctIds(log) && RefusesUnreadable(project) && e in After(log, start) && Unreadable(e)
    ensures !Accepts(project, first, Ordered(After(log, start)))
  {
    var pending := Ordered(After(log, start));
    assert e in pending;
    var i :| 0 <= i < |pending| && pending[i] == e;
    assert !project(first + i, pending[i]);
  }

  lemma UnreadableStaysPending(log: set<EventRow>, start: Option<Cursor>, project: Projector, first: nat,
      before: seq<EventRow>, projected: seq<EventRow>, cursor: Option<Cursor>, e: EventRow)
    requires DistinctIds(log) && RefusesUnreadable(project) && e in After(log, start) && Unreadable(e)
    requires Stopped(log, project, first, Ordered(After(log, start)), before, projected, cursor)
    ensures e in After(log, cursor)
  {
    var pending := Ordered(After(log, start));
    var m :| 0 <= m < |pending| && FailsAt(project, first, pending, m)
          && StoppedInside(log, pending, before, projected, cursor, m);
    var c :| 0 <= c <= m && Ordered(After(log, cursor)) == pending[c..];
    assert e in pending;
    NotYetPassed(project, first, pending, m, c, e);
    assert e in Ordered(After(log, cursor));
  }

  lemma NotYetPassed(project: Projector, first: nat, pending: seq<EventRow>, m: nat, c: nat, e: EventRow)
    requires c <= m && FailsAt(project, first, pending, m)
    requires e in pending && forall n :: !project(n, e)
    ensures e in pending[c..]
  {
    var i :| 0 <= i < |pending| && pending[i] == e;
    forall k | 0 <= k < m ensures pending[k] != e { assert project(first + k, pending[..m][k]); }
    assert pending[c..][i - c] == e;
  }

  /** A whole catch-up: what it starts from, and how it ends. */
  datatype CatchingUp = CatchingUp(
    log: set<EventRow>,
    project: Projector,
    first: nat,
    start: Option<Cursor>,
    before: seq<EventRow>,
    projected: seq<EventRow>,
    cursor: Option<Cursor>,
    succeeded: bool)

  /** It ends as `CatchUp` says. */
  ghost predicate Happens(u: CatchingUp) {
    && DistinctIds(u.log)
    && var pending := Ordered(After(u.log, u.start));
    && (u.succeeded ==>
          Accepts(u.project, u.first, pending) && u.projected == u.before + pending && After(u.log, u.cursor) == {})
    && (!u.succeeded ==> Stopped(u.log, u.project, u.first, pending, u.before, u.projected, u.cursor))
  }

  /** One catch-up after the other, each from the cursor that the last one left; the log may have grown. */
  ghost predicate OneAfterTheOther(us: seq<CatchingUp>) {
    && (forall n | 0 <= n < |us| :: Happens(us[n]))
    && (forall n | 1 <= n < |us| :: us[n].start == us[n - 1].cursor && us[n - 1].log <= us[n].log)
  }

  /**
   * While no handler moves the cursor, a pending claim without a task fails every catch-up, however the
   * graph behaves and whatever is appended, and it is still pending after each.
   */
  lemma {:induction false} UnreadableBlocksForever(us: seq<CatchingUp>, e: EventRow, n: nat)
    requires OneAfterTheOther(us) && n < |us| && forall k | 0 <= k <= n :: RefusesUnreadable(us[k].project)
    requires e in After(us[0].log, us[0].start) && Unreadable(e)
    ensures !us[n].succeeded && e in After(us[n].log, us[n].cursor)
    decreases n
  {
    var u := us[n];
    if n > 0 {
      UnreadableBlocksForever(us, e, n - 1);
      assert us[n - 1].log <= u.log;
    }
    UnreadableIsNotAccepted(u.log, u.start, u.project, u.first, e);
    UnreadableStaysPending(u.log, u.start, u.project, u.first, u.before, u.projected, u.cursor, e);
  }

  /**
   * When all readable events go through, a catch-up succeeds exactly when no pending event is unreadable,
   * and otherwise has projected every event before the first such one.
   */
  lemma SucceedsIffAllReadable(u: CatchingUp)
    requires Happens(u) && RefusesUnreadable(u.project) && ProjectsReadable(u.project)
    ensures u.succeeded <==> forall e | e in After(u.log, u.start) :: !Unreadable(e)
    ensures !u.succeeded ==> exists e ::
              && e in After(u.log, u.start) && Unreadable(e)
              && forall other | other in After(u.log, u.start) && Precedes(other, e) :: other in u.projected
  {
    var pending := Ordered(After(u.log, u.start));
    if u.succeeded {
      forall e | e in After(u.log, u.start) ensures !Unreadable(e) {
        if Unreadable(e) { UnreadableIsNotAccepted(u.log, u.start, u.project, u.first, e); }
      }
    } else {
      var m :| 0 <= m < |pending| && FailsAt(u.project, u.first, pending, m)
            && StoppedInside(u.log, pending, u.before, u.projected, u.cursor, m);
      assert pending[m] in pending && Unreadable(pending[m]);
      forall other | other in After(u.log, u.start) && Precedes(other, pending[m]) ensures other in u.projected {
        assert other in pending;
        EarlierIsInPrefix(pending, m, other);
        assert u.projected == u.before + pending[..m];
      }
    }
  }

  lemma EarlierIsInPrefix(pending: seq<EventRow>, m: nat, e: EventRow)
    requires Increasing(Precedes, pending) && m < |pending| && e in pending && Precedes(e, pending[m])
    ensures e in pending[..m]
  {
    var i :| 0 <= i < |pending| && pending[i] == e;
    assert i < m;
    assert pending[..m][i] == e;
  }
}
