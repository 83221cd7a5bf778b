/** Tailing a workspace's events: the server's page and the client loop that follows the last event id. */
module Tail {
  import opened Common
  import opened EventLog
  import opened Sorting

  const DEFAULT_LIST_LIMIT: int := 25
  const MAX_LIST_LIMIT: int := 200

  function NormalizedListLimit(requested: Option<int>): (limit: nat)
    ensures 1 <= limit <= MAX_LIST_LIMIT
  {
    var limit := if requested.Some? then requested.value else DEFAULT_LIST_LIMIT;
    if limit < 1 then 1 else if limit > MAX_LIST_LIMIT then MAX_LIST_LIMIT else limit
  }

  /** What a page is limited to: what was asked for within 1 to 200, and 25 when nothing was asked for. */
  lemma ListLimits(requested: int)
    ensures NormalizedListLimit(None) == 25
    ensures 1 <= requested <= 200 ==> NormalizedListLimit(Some(requested)) == requested
    ensures requested < 1 ==> NormalizedListLimit(Some(requested)) == 1
    ensures requested > 200 ==> NormalizedListLimit(Some(requested)) == 200
  {
  }

  ghost predicate Names(log: set<EventRow>, workspace: string, id: Id, e: EventRow) {
    e in log && e.workspace == workspace && e.eventId == id
  }

  /** What `tail_events` answers. */
  ghost function TailPage(log: set<EventRow>, workspace: string, after: Option<Id>,
      requested: Option<int>): Result<seq<EventRow>, Error>
    requires DistinctIds(log)
  {
    var limit := NormalizedListLimit(requested);
    if after.None? then Ok(FetchAfterWorkspaceCursor(log, workspace, None, limit))
    else if exists e :: Names(log, workspace, after.value, e) then
      var e :| Names(log, workspace, after.value, e);
      Ok(FetchAfterWorkspaceCursor(log, workspace, Some(CursorOf(e)), limit))
    else Err(NotFound)
  }

  method TailEvents(log: set<EventRow>, workspace: string, after: Option<Id>,
      requested: Option<int>) returns (r: Result<seq<EventRow>, Error>)
    requires DistinctIds(log)
    ensures r == TailPage(log, workspace, after, requested)
  {
    var cursor: Option<Cursor> := None;
    if after.Some? {
      var found := set e | e in log && e.workspace == workspace && e.eventId == after.value;
      if found == {} {
        forall e ensures !Names(log, workspace, after.value, e) { assert e !in found; }
        return Err(NotFound);
      }
      var e :| e in found;
      assert Names(log, workspace, after.value, e);
      cursor := Some(CursorOf(e));
    }
    var rows := FetchEventRowsAfterWorkspaceCursor(log, workspace, cursor, NormalizedListLimit(requested));
    r := Ok(rows);
  }

  /** One client: what it asks for, the log as each poll finds it, and the limit of each poll. */
  datatype Session = Session(workspace: string, after: Option<Id>, limits: seq<Option<int>>, polls: seq<set<EventRow>>)

  ghost predicate ValidSession(s: Session) {
    |s.limits| == |s.polls| && forall n | 0 <= n < |s.polls| :: DistinctIds(s.polls[n])
  }

  /** The events printed and the cursor kept after `n` polls; a failed poll ends the loop. */
  ghost function Followed(s: Session, n: nat): Result<(seq<EventRow>, Option<Id>), Error>
    requires ValidSession(s) && n <= |s.polls|
  {
    if n == 0 then Ok(([], s.after))
    else
      var before := Followed(s, n - 1);
      if before.Err? then before
      else
        var (printed, cursor) := before.value;
        var page := TailPage(s.polls[n - 1], s.workspace, cursor, s.limits[n - 1]);
        if page.Err? then Err(page.error)
        else Ok((printed + page.value, if page.value == [] then cursor else Some(page.value[|page.value| - 1].eventId)))
  }

  /** `handle_tail_events` for as many polls as the session lasts. */
  method HandleTailEvents(s: Session) returns (r: Result<(seq<EventRow>, Option<Id>), Error>)
    requires ValidSession(s)
    ensures r.Ok? ==> r == Followed(s, |s.polls|)
    ensures r.Err? ==> exists n | 0 <= n <= |s.polls| :: Followed(s, n) == r
  {
    var cursor := s.after;
    var printed: seq<EventRow> := [];
    for n := 0 to |s.polls|
      invariant Followed(s, n) == Ok((printed, cursor))
    {
      var page := TailEvents(s.polls[n], s.workspace, cursor, s.limits[n]);
      if page.Err? {
        assert Followed(s, n + 1) == Err(page.error);
        return Err(page.error);
      }
      printed := printed + page.value;
      if page.value != [] { cursor := Some(page.value[|page.value| - 1].eventId); }
      assert Followed(s, n + 1) == Ok((printed, cursor));
    }
    r := Ok((printed, cursor));
  }

  // ---------------------------------------------------------------------------------------------
  // No gap, no duplicate
  // ---------------------------------------------------------------------------------------------

  /** The log only grows, and the session starts from an event of its workspace. */
  ghost predicate StartsFrom(s: Session, start: EventRow) {
    && ValidSession(s)
    && s.after == Some(start.eventId)
    && (forall m, n | 0 <= m <= n < |s.polls| :: s.polls[m] <= s.polls[n])
    && (forall n | 0 <= n < |s.polls| :: Names(s.polls[n], s.workspace, start.eventId, start))
  }

  /** The event the cursor stands on after `n` polls. */
  ghost function CursorEvent(s: Session, start: EventRow, n: nat): EventRow
    requires ValidSession(s) && n <= |s.polls|
  {
    var r := Followed(s, n);
    if r.Err? || r.value.0 == [] then start else r.value.0[|r.value.0| - 1]
  }

  /** Events of `log` that `earlier` did not have, at or before the place of `last`. */
  ghost function Overtaken(earlier: set<EventRow>, log: set<EventRow>, workspace: string,
      last: EventRow): set<EventRow> {
    set e | e in InWorkspace(log, workspace) && e !in earlier && !Precedes(last, e)
  }

  /** Events that appeared in the log when the cursor had already reached or passed their place. */
  ghost function Late(s: Session, start: EventRow, n: nat): set<EventRow>
    requires ValidSession(s) && n <= |s.polls|
  {
    if n <= 1 then {}
    else Late(s, start, n - 1) + Overtaken(s.polls[n - 2], s.polls[n - 1], s.workspace, CursorEvent(s, start, n - 1))
  }

  /** The workspace's events after `start` up to and including `last`. */
  ghost function Span(log: set<EventRow>, workspace: string, start: EventRow, last: EventRow): set<EventRow> {
    set e | e in InWorkspace(log, workspace) && Precedes(start, e) && !Precedes(last, e)
  }

  /**
   * After any number of polls of any positive limits, what was printed is, in log order and without
   * repetition, every later event of the workspace up to the cursor, except those that were late.
   */
  lemma {:induction false} TailHasNoGapAndNoDuplicate(s: Session, start: EventRow, n: nat)
    requires StartsFrom(s, start) && 1 <= n <= |s.polls|
    ensures Followed(s, n).Ok?
    ensures var (printed, cursor) := Followed(s, n).value;
            var last := CursorEvent(s, start, n);
            && cursor == Some(last.eventId)
            && last in s.polls[n - 1] && last.workspace == s.workspace
            && (start == last || Precedes(start, last))
            && (forall e | e in Late(s, start, n) :: !Precedes(last, e))
            && IsOrdered(Span(s.polls[n - 1], s.workspace, start, last) - Late(s, start, n), printed)
    decreases n
  {
    var log := s.polls[n - 1];
    var limit := NormalizedListLimit(s.limits[n - 1]);
    if n == 1 {
      assert Span(log, s.workspace, start, start) == {};
      assert Overtaken(log, log, s.workspace, start) == {};
      PollFrom(s, start, n, [], start);
      PageExtends(log, log, s.workspace, start, start, {}, limit, []);
    } else {
      TailHasNoGapAndNoDuplicate(s, start, n - 1);
      var (printed, _) := Followed(s, n - 1).value;
      var last := CursorEvent(s, start, n - 1);
      assert s.polls[n - 2] <= log;
      PollFrom(s, start, n, printed, last);
      PageExtends(s.polls[n - 2], log, s.workspace, start, last, Late(s, start, n - 1), limit, printed);
    }
  }

  /** Whatever the m-th poll finds new sorts after the cursor it polls with. */
  ghost predicate ArrivesInTime(s: Session, start: EventRow, m: nat)
    requires ValidSession(s) && 2 <= m <= |s.polls|
  {
    Overtaken(s.polls[m - 2], s.polls[m - 1], s.workspace, CursorEvent(s, start, m - 1)) == {}
  }

  /** With no late event, what was printed is exactly the later events up to the cursor. */
  lemma TailIsComplete(s: Session, start: EventRow, n: nat)
    requires StartsFrom(s, start) && 1 <= n <= |s.polls|
    requires forall m | 2 <= m <= n :: ArrivesInTime(s, start, m)
    ensures Followed(s, n).Ok?
    ensures Followed(s, n).value.0 == Ordered(Span(s.polls[n - 1], s.workspace, start, CursorEvent(s, start, n)))
  {
    TailHasNoGapAndNoDuplicate(s, start, n);
    NoneLate(s, start, n);
    var span := Span(s.polls[n - 1], s.workspace, start, CursorEvent(s, start, n));
    assert span - {} == span;
    SameRows(Followed(s, n).value.0, Ordered(span));
  }

  lemma {:induction false} NoneLate(s: Session, start: EventRow, n: nat)
    requires ValidSession(s) && n <= |s.polls|
    requires forall m | 2 <= m <= n :: ArrivesInTime(s, start, m)
    ensures Late(s, start, n) == {}
    decreases n
  {
    if n > 1 {
      NoneLate(s, start, n - 1);
      assert ArrivesInTime(s, start, n);
    }
  }

  ghost function NextPage(log: set<EventRow>, workspace: string, last: EventRow, limit: nat): seq<EventRow>
    requires DistinctIds(log)
  {
    FetchAfterWorkspaceCursor(log, workspace, Some(CursorOf(last)), limit)
  }

  function LastOf(page: seq<EventRow>, otherwise: EventRow): EventRow {
    if page == [] then otherwise else page[|page| - 1]
  }

  lemma PollFrom(s: Session, start: EventRow, n: nat, printed: seq<EventRow>, last: EventRow)
    requires StartsFrom(s, start) && 1 <= n <= |s.polls|
    requires Followed(s, n - 1) == Ok((printed, Some(last.eventId))) && CursorEvent(s, start, n - 1) == last
    requires last in s.polls[n - 1] && last.workspace == s.workspace
    ensures var page := NextPage(s.polls[n - 1], s.workspace, last, NormalizedListLimit(s.limits[n - 1]));
            && Followed(s, n) == Ok((printed + page, Some(LastOf(page, last).eventId)))
            && CursorEvent(s, start, n) == LastOf(page, last)
  {
    var page := NextPage(s.polls[n - 1], s.workspace, last, NormalizedListLimit(s.limits[n - 1]));
    assert Names(s.polls[n - 1], s.workspace, last.eventId, last);
    if page == [] { assert printed + page == printed; }
  }

  /** A page lists, of the events after `last`, exactly those up to its own last event. */
  lemma PageIsSpan(log: set<EventRow>, workspace: string, last: EventRow, limit: nat, e: EventRow)
    requires DistinctIds(log) && limit >= 1
    ensures var page := NextPage(log, workspace, last, limit);
            && Increasing(Precedes, page)
            && (LastOf(page, last) == last || Precedes(last, LastOf(page, last)))
            && (page != [] ==> LastOf(page, last) in log && LastOf(page, last).workspace == workspace)
            && (e in page <==>
                  e in InWorkspace(log, workspace) && Precedes(last, e) && !Precedes(LastOf(page, last), e))
  {
    var rows := Ordered(After(InWorkspace(log, workspace), Some(CursorOf(last))));
    var page := NextPage(log, workspace, last, limit);
    var k := |page|;
    assert page == rows[..k];
    if k > 0 {
      assert page[k - 1] in rows;
      if e in rows { RowsAfter(rows, k, e); InTakeOrDrop(rows, k, e); }
      assert e in page ==> e in rows;
    }
  }

  lemma InTakeOrDrop(rows: seq<EventRow>, k: nat, e: EventRow)
    requires k <= |rows| && e in rows && Increasing(Precedes, rows)
    ensures e in rows[..k] <==> e !in rows[k..]
  {
    assert rows == rows[..k] + rows[k..];
  }

  lemma PageExtends(earlier: set<EventRow>, log: set<EventRow>, workspace: string, start: EventRow, last: EventRow,
      late: set<EventRow>, limit: nat, printed: seq<EventRow>)
    requires DistinctIds(log) && earlier <= log && limit >= 1
    requires start == last || Precedes(start, last)
    requires last in log && last.workspace == workspace
    requires forall e | e in late :: !Precedes(last, e)
    requires IsOrdered(Span(earlier, workspace, start, last) - late, printed)
    ensures var page := NextPage(log, workspace, last, limit);
            var next := LastOf(page, last);
            var late' := late + Overtaken(earlier, log, workspace, last);
            && next in log && next.workspace == workspace
            && (start == next || Precedes(start, next))
            && (forall e | e in late' :: !Precedes(next, e))
            && IsOrdered(Span(log, workspace, start, next) - late', printed + page)
  {
    var page := NextPage(log, workspace, last, limit);
    var next := LastOf(page, last);
    var late' := late + Overtaken(earlier, log, workspace, last);
    PageIsSpan(log, workspace, last, limit, last);
    forall e ensures e in printed + page <==> e in Span(log, workspace, start, next) - late' {
      PageIsSpan(log, workspace, last, limit, e);
      assert e in printed <==> e in Span(earlier, workspace, start, last) - late;
    }
    forall i, j | 0 <= i < j < |printed + page| ensures Precedes((printed + page)[i], (printed + page)[j]) {
      if i < |printed| <= j {
        var a, b := printed[i], page[j - |printed|];
        assert a in printed && b in page;
        PageIsSpan(log, workspace, last, limit, b);
        assert !Precedes(last, a);
      }
    }
  }

  /**
   * Without a starting event the first page is the latest one: it leaves out older events exactly when there
   * are more than fit.
   */
  lemma FirstPageIsTheLatest(log: set<EventRow>, workspace: string, requested: Option<int>)
    requires DistinctIds(log)
    ensures var all := Ordered(InWorkspace(log, workspace));
            var page := TailPage(log, workspace, None, requested);
            && page.Ok? && |page.value| <= |all|
            && page.value == all[|all| - |page.value|..]
            && (page.value == all <==> |all| <= NormalizedListLimit(requested))
  {
    assert After(InWorkspace(log, workspace), None) == InWorkspace(log, workspace);
  }

  /** A session without a starting event, over a log that only grows. */
  ghost predicate StartsFromNothing(s: Session) {
    && ValidSession(s) && s.after.None? && s.polls != []
    && (forall m, n | 0 <= m <= n < |s.polls| :: s.polls[m] <= s.polls[n])
  }

  ghost function FirstPage(s: Session): seq<EventRow>
    requires StartsFromNothing(s)
  {
    TailPage(s.polls[0], s.workspace, None, s.limits[0]).value
  }

  /** What the session does after its first poll. */
  ghost function AfterFirstPoll(s: Session): Session
    requires StartsFromNothing(s)
  {
    var page := FirstPage(s);
    Session(s.workspace, if page == [] then None else Some(page[|page| - 1].eventId), s.limits[1..], s.polls[1..])
  }

  function Preceded(first: seq<EventRow>, r: Result<(seq<EventRow>, Option<Id>), Error>):
      Result<(seq<EventRow>, Option<Id>), Error> {
    match r
    case Ok((printed, cursor)) => Ok((first + printed, cursor))
    case Err(e) => Err(e)
  }

  lemma {:induction false} FirstPollThenTheRest(s: Session, n: nat)
    requires StartsFromNothing(s) && 1 <= n <= |s.polls|
    ensures Followed(s, n) == Preceded(FirstPage(s), Followed(AfterFirstPoll(s), n - 1))
    decreases n
  {
    var rest := AfterFirstPoll(s);
    if n == 1 {
      assert Followed(s, 0) == Ok(([], None));
      assert [] + FirstPage(s) == FirstPage(s) + [];
    } else {
      FirstPollThenTheRest(s, n - 1);
      OnePollMore(s, rest, n, FirstPage(s));
    }
  }

  /** A poll that two sessions have in common, when one has printed `first` before all that the other has. */
  lemma OnePollMore(s: Session, rest: Session, n: nat, first: seq<EventRow>)
    requires ValidSession(s) && ValidSession(rest) && 2 <= n <= |s.polls| && n - 1 <= |rest.polls|
    requires rest.workspace == s.workspace
    requires rest.polls[n - 2] == s.polls[n - 1] && rest.limits[n - 2] == s.limits[n - 1]
    requires Followed(s, n - 1) == Preceded(first, Followed(rest, n - 2))
    ensures Followed(s, n) == Preceded(first, Followed(rest, n - 1))
  {
    if Followed(rest, n - 2).Ok? {
      var (printed, cursor) := Followed(rest, n - 2).value;
      var page := TailPage(s.polls[n - 1], s.workspace, cursor, s.limits[n - 1]);
      if page.Ok? { assert (first + printed) + page.value == first + (printed + page.value); }
    }
  }

  /** Once the first page is not empty, the rest is a session that starts from its last event. */
  lemma RestStartsFromFirstPage(s: Session)
    requires StartsFromNothing(s) && FirstPage(s) != []
    ensures StartsFrom(AfterFirstPoll(s), FirstPage(s)[|FirstPage(s)| - 1])
  {
    var rest, page := AfterFirstPoll(s), FirstPage(s);
    var last := page[|page| - 1];
    FirstPageIsTheLatest(s.polls[0], s.workspace, s.limits[0]);
    var all := Ordered(InWorkspace(s.polls[0], s.workspace));
    assert last == all[|all| - 1] && last in all;
    forall n | 0 <= n < |rest.polls| ensures Names(rest.polls[n], s.workspace, last.eventId, last) {
      assert s.polls[0] <= s.polls[n + 1] == rest.polls[n];
    }
  }

  /**
   * A session without a starting event prints its first page and then goes on from the last event of that
   * page, with no gap and no repetition; an event that the first page left out is never printed.
   */
  lemma TailFromTheFirstPage(s: Session, n: nat, skipped: EventRow)
    requires StartsFromNothing(s) && FirstPage(s) != [] && 2 <= n <= |s.polls|
    ensures var page, rest := FirstPage(s), AfterFirstPoll(s);
            var start := page[|page| - 1];
            var last := CursorEvent(rest, start, n - 1);
            && Followed(s, n).Ok?
            && var printed := Followed(s, n).value.0;
            && page <= printed
            && IsOrdered(Span(s.polls[n - 1], s.workspace, start, last) - Late(rest, start, n - 1), printed[|page|..])
            && (skipped in InWorkspace(s.polls[0], s.workspace) && skipped !in page ==> skipped !in printed)
  {
    var page, rest := FirstPage(s), AfterFirstPoll(s);
    var start := page[|page| - 1];
    RestStartsFromFirstPage(s);
    FirstPollThenTheRest(s, n);
    TailHasNoGapAndNoDuplicate(rest, start, n - 1);
    var printed := Followed(rest, n - 1).value.0;
    assert (page + printed)[|page|..] == printed;
    if skipped in InWorkspace(s.polls[0], s.workspace) && skipped !in page && skipped in printed {
      SkippedPrecedesFirstPage(s, skipped);
    }
  }

  lemma SkippedPrecedesFirstPage(s: Session, skipped: EventRow)
    requires StartsFromNothing(s) && FirstPage(s) != []
    requires skipped in InWorkspace(s.polls[0], s.workspace) && skipped !in FirstPage(s)
    ensures Precedes(skipped, FirstPage(s)[|FirstPage(s)| - 1])
  {
    FirstPageIsTheLatest(s.polls[0], s.workspace, s.limits[0]);
    var all := Ordered(InWorkspace(s.polls[0], s.workspace));
    assert skipped in all;
    var i :| 0 <= i < |all| && all[i] == skipped;
    assert all[|all| - 1] in FirstPage(s);
  }

  /** There is such a session: two events and a limit of one. */
  lemma OlderEventIsSkipped() returns (s: Session, skipped: EventRow)
    ensures StartsFromNothing(s) && FirstPage(s) != [] && |s.polls| == 2
    ensures skipped in InWorkspace(s.polls[0], s.workspace) && skipped !in FirstPage(s)
    ensures Followed(s, 2).Ok? && skipped !in Followed(s, 2).value.0
  {
    skipped := EventRow(0, "w", "note_recorded", None, 0);
    var latest := EventRow(1, "w", "note_recorded", None, 1);
    var log := {skipped, latest};
    s := Session("w", None, [Some(1), Some(1)], [log, log]);
    LatestOfTwo(log, skipped, latest);
    assert FirstPage(s) == [latest];
    TailFromTheFirstPage(s, 2, skipped);
  }

  lemma LatestOfTwo(log: set<EventRow>, older: EventRow, newer: EventRow)
    requires log == {older, newer} && older.workspace == newer.workspace && Precedes(older, newer)
    requires DistinctIds(log)
    ensures TailPage(log, newer.workspace, None, Some(1)) == Ok([newer])
    ensures older in InWorkspace(log, newer.workspace)
  {
    assert InWorkspace(log, newer.workspace) == log && After(log, None) == log;
    assert [older, newer][1..] == [newer];
    SameRows(Ordered(log), [older, newer]);
  }
}
