/** The event log and its ordered, limited queries. */
module EventLog {
  import opened Common
  import opened Sorting

  /** A row of `events`; of its payload only the `task_id` is kept, if there is one. */
  datatype EventRow = EventRow(eventId: Id, workspace: string, kind: string, taskId: Option<Id>, createdAt: Time)

  /** `ProjectionCursor`: the place of an event in the total order of the log. */
  datatype Cursor = Cursor(createdAt: Time, eventId: Id)

  function CursorOf(e: EventRow): Cursor {
    Cursor(e.createdAt, e.eventId)
  }

  /** `created_at > $1 OR (created_at = $1 AND event_id > $2)`. */
  predicate IsAfter(e: EventRow, c: Cursor) {
    e.createdAt > c.createdAt || (e.createdAt == c.createdAt && e.eventId > c.eventId)
  }

  predicate Precedes(a: EventRow, b: EventRow) {
    IsAfter(b, CursorOf(a))
  }

  /** `event_id` is the primary key. */
  ghost predicate DistinctIds(log: set<EventRow>) {
    forall a, b | a in log && b in log && a.eventId == b.eventId :: a == b
  }

  function After(log: set<EventRow>, cursor: Option<Cursor>): set<EventRow> {
    set e | e in log && (cursor.None? || IsAfter(e, cursor.value))
  }

  function InWorkspace(log: set<EventRow>, workspace: string): set<EventRow> {
    set e | e in log && e.workspace == workspace
  }

  lemma EventOrder()
    ensures StrictOrder(Precedes)
  {
  }

  ghost predicate IsOrdered(events: set<EventRow>, rows: seq<EventRow>) {
    Increasing(Precedes, rows) && forall e :: e in rows <==> e in events
  }

  /** `ORDER BY created_at ASC, event_id ASC`. */
  ghost function Ordered(events: set<EventRow>): (rows: seq<EventRow>)
    requires DistinctIds(events)
    ensures IsOrdered(events, rows)
  {
    OrderExists(events);
    var rows :| IsOrdered(events, rows);
    rows
  }

  lemma {:induction false} OrderExists(events: set<EventRow>)
    requires DistinctIds(events)
    ensures exists rows :: IsOrdered(events, rows)
    decreases events
  {
    if events == {} {
      assert IsOrdered(events, []);
    } else {
      FirstExists(events);
      var first :| first in events && forall e | e in events :: e == first || Precedes(first, e);
      OrderExists(events - {first});
      var rest :| IsOrdered(events - {first}, rest);
      assert IsOrdered(events, [first] + rest);
    }
  }

  /** Runs the query: repeatedly the row that precedes all others. */
  method Order(events: set<EventRow>) returns (rows: seq<EventRow>)
    requires DistinctIds(events)
    ensures rows == Ordered(events)
  {
    rows := [];
    var remaining := events;
    while remaining != {}
      invariant remaining <= events
      invariant Increasing(Precedes, rows)
      invariant forall e :: e in rows <==> e in events - remaining
      invariant forall a, b | a in rows && b in remaining :: Precedes(a, b)
      decreases remaining
    {
      FirstExists(remaining);
      var first :| first in remaining && forall e | e in remaining :: e == first || Precedes(first, e);
      rows := rows + [first];
      remaining := remaining - {first};
    }
    SameRows(rows, Ordered(events));
  }

  lemma FirstExists(events: set<EventRow>)
    requires DistinctIds(events) && events != {}
    ensures exists first :: first in events && forall e | e in events :: e == first || Precedes(first, e)
  {
    EventOrder();
    MinimalExists(Precedes, events);
    var first :| first in events && forall e | e in events :: !Precedes(e, first);
    assert forall e | e in events :: e == first || Precedes(first, e);
  }

  function Take(rows: seq<EventRow>, limit: nat): seq<EventRow> {
    if |rows| <= limit then rows else rows[..limit]
  }

  /** The last `limit` rows, oldest first: a descending query that the code reverses. */
  function TakeLast(rows: seq<EventRow>, limit: nat): seq<EventRow> {
    if |rows| <= limit then rows else rows[|rows| - limit..]
  }

  /** What `fetch_event_rows_after_cursor` returns. */
  ghost function FetchAfterCursor(log: set<EventRow>, cursor: Option<Cursor>, limit: nat): seq<EventRow>
    requires DistinctIds(log)
  {
    Take(Ordered(After(log, cursor)), limit)
  }

  /** What `fetch_event_rows_after_workspace_cursor` returns. */
  ghost function FetchAfterWorkspaceCursor(log: set<EventRow>, workspace: string, cursor: Option<Cursor>,
      limit: nat): seq<EventRow>
    requires DistinctIds(log)
  {
    var rows := Ordered(After(InWorkspace(log, workspace), cursor));
    if cursor.Some? then Take(rows, limit) else TakeLast(rows, limit)
  }

  /** Rows are ordered by the time of their event, and by its id among events of one time. */
  lemma OrderIsByTime(log: set<EventRow>, i: nat, j: nat)
    requires DistinctIds(log) && i < j < |Ordered(log)|
    ensures var a, b := Ordered(log)[i], Ordered(log)[j];
            a.createdAt < b.createdAt || (a.createdAt == b.createdAt && a.eventId < b.eventId)
  {
  }

  function Least(a: nat, b: nat): nat { if a <= b then a else b }

  /** A page is as long as its limit and the pending rows allow, and every row it leaves out comes later. */
  lemma PageIsFull(log: set<EventRow>, cursor: Option<Cursor>, limit: nat)
    requires DistinctIds(log)
    ensures var pending, page := After(log, cursor), FetchAfterCursor(log, cursor, limit);
            && |page| == Least(limit, |Ordered(pending)|)
            && (forall e | e in page :: e in pending)
            && (forall e, out | e in page && out in pending && out !in page :: Precedes(e, out))
  {
    var rows := Ordered(After(log, cursor));
    PrefixPrecedes(rows, Least(limit, |rows|));
  }

  lemma PrefixPrecedes(rows: seq<EventRow>, n: nat)
    requires Increasing(Precedes, rows) && n <= |rows|
    ensures forall e | e in rows[..n] :: e in rows
    ensures forall e, out | e in rows[..n] && out in rows && out !in rows[..n] :: Precedes(e, out)
    ensures forall e | e in rows[n..] :: e in rows
    ensures forall e, out | e in rows[n..] && out in rows && out !in rows[n..] :: Precedes(out, e)
  {
    forall e, out | e in rows[..n] && out in rows && out !in rows[..n] ensures Precedes(e, out) {
      assert rows == rows[..n] + rows[n..];
      var i :| 0 <= i < n && rows[i] == e;
      var j :| 0 <= j < |rows[n..]| && rows[n..][j] == out;
      assert rows[n + j] == out;
    }
    forall e, out | e in rows[n..] && out in rows && out !in rows[n..] ensures Precedes(out, e) {
      assert rows == rows[..n] + rows[n..];
      var i :| 0 <= i < n && rows[i] == out;
      var j :| 0 <= j < |rows[n..]| && rows[n..][j] == e;
      assert rows[n + j] == e;
    }
  }

  /** So is a page of a workspace; without a cursor it is the rows left out that come earlier. */
  lemma WorkspacePageIsFull(log: set<EventRow>, workspace: string, cursor: Option<Cursor>, limit: nat)
    requires DistinctIds(log)
    ensures var page := FetchAfterWorkspaceCursor(log, workspace, cursor, limit);
            var pending := After(InWorkspace(log, workspace), cursor);
            && |page| == Least(limit, |Ordered(pending)|)
            && (forall e | e in page :: e in pending && e in log && e.workspace == workspace)
            && (forall e, out | e in page && out in pending && out !in page ::
                  if cursor.Some? then Precedes(e, out) else Precedes(out, e))
  {
    var rows := Ordered(After(InWorkspace(log, workspace), cursor));
    var n := Least(limit, |rows|);
    PrefixPrecedes(rows, if cursor.Some? then n else |rows| - n);
  }

  /** In an increasing sequence, the rows after the n-th are those that it precedes. */
  lemma RowsAfter(rows: seq<EventRow>, n: nat, e: EventRow)
    requires 1 <= n <= |rows| && Increasing(Precedes, rows) && e in rows
    ensures Precedes(rows[n - 1], e) <==> e in rows[n..]
  {
    var k :| 0 <= k < |rows| && rows[k] == e;
    if k < n {
      assert k == n - 1 || Precedes(rows[k], rows[n - 1]);
    } else {
      assert rows[n..][k - n] == e && Precedes(rows[n - 1], rows[k]);
    }
  }

  lemma AfterLater(log: set<EventRow>, cursor: Option<Cursor>, at: EventRow, e: EventRow)
    requires at in After(log, cursor)
    ensures e in After(log, Some(CursorOf(at))) <==> e in After(log, cursor) && Precedes(at, e)
  {
  }

  /** Moving the cursor to the n-th row leaves exactly the rows after it. */
  lemma AdvancingDropsAPrefix(log: set<EventRow>, cursor: Option<Cursor>, n: nat)
    requires DistinctIds(log) && 1 <= n <= |Ordered(After(log, cursor))|
    ensures var rows := Ordered(After(log, cursor));
            Ordered(After(log, Some(CursorOf(rows[n - 1])))) == rows[n..]
  {
    var rows := Ordered(After(log, cursor));
    var rest := Ordered(After(log, Some(CursorOf(rows[n - 1]))));
    assert rows[n - 1] in rows;
    forall e ensures e in rest <==> e in rows[n..] {
      AfterLater(log, cursor, rows[n - 1], e);
      if e in rows { RowsAfter(rows, n, e); }
    }
    SameRows(rest, rows[n..]);
  }

  lemma SameRows(xs: seq<EventRow>, ys: seq<EventRow>)
    requires Increasing(Precedes, xs) && Increasing(Precedes, ys) && forall e :: e in xs <==> e in ys
    ensures xs == ys
  {
    EventOrder();
    IncreasingIsUnique(Precedes, xs, ys);
  }

  method FetchEventRowsAfterCursor(log: set<EventRow>, cursor: Option<Cursor>, limit: nat) returns (rows: seq<EventRow>)
    requires DistinctIds(log)
    ensures rows == FetchAfterCursor(log, cursor, limit)
  {
    var all := Order(After(log, cursor));
    rows := Take(all, limit);
  }

  method FetchEventRowsAfterWorkspaceCursor(log: set<EventRow>, workspace: string, cursor: Option<Cursor>, limit: nat)
    returns (rows: seq<EventRow>)
    requires DistinctIds(log)
    ensures rows == FetchAfterWorkspaceCursor(log, workspace, cursor, limit)
  {
    var all := Order(After(InWorkspace(log, workspace), cursor));
    rows := if cursor.Some? then Take(all, limit) else TakeLast(all, limit);
  }
}
