/** The triage client: one call after another, while others may write between any two of them. */
module TriageClient {
  import opened Common
  import opened Normalise
  import opened Sorting
  import opened Tables
  import opened Triage

  datatype Outcome = Outcome(changed: bool, completed: bool, updated: bool)

  datatype Summary = Summary(
    taskIds: seq<Id>,
    updated: seq<Id>,
    completed: seq<Id>,
    untouched: seq<Id>,
    labels: Option<seq<string>>,
    owner: Option<string>,
    priority: Option<string>)

  /** What other writers commit just before the k-th call reaches the server: anything at all. */
  type Turn = (nat, Server) -> Server

  type Handler = (Server, Request) -> Result<Server, Error>

  /** The other writers, and the server's answer to a request. */
  datatype Api = Api(turn: Turn, handle: Handler)

  ghost predicate Answers(api: Api, t: Args) {
    forall s, q :: api.handle(s, q) == Handle(s, t, q)
  }

  /** Nobody else writes; time may pass between any two calls. */
  ghost predicate Quiet(api: Api) {
    forall k, s :: api.turn(k, s) == s.(clock := api.turn(k, s).clock)
  }

  // ---------------------------------------------------------------------------------------------
  // Exchanges with the server
  // ---------------------------------------------------------------------------------------------

  /** What a series of requests comes to: the state left behind, the requests sent, the last one refused if any was. */
  datatype Exchange = Exchange(server: Server, sent: seq<Request>, failure: Option<Error>)

  /** The requests in turn, from the k-th call on, up to the first that is refused. */
  function Served(api: Api, k: nat, s: Server, requests: seq<Request>): Exchange
    decreases |requests|
  {
    if requests == [] then Exchange(s, [], None)
    else
      var seen := api.turn(k, s);
      match api.handle(seen, requests[0])
      case Err(e) => Exchange(seen, [requests[0]], Some(e))
      case Ok(next) =>
        var rest := Served(api, k + 1, next, requests[1..]);
        rest.(sent := [requests[0]] + rest.sent)
  }

  lemma {:induction false} AllSent(api: Api, k: nat, s: Server, requests: seq<Request>)
    ensures var x := Served(api, k, s, requests); x.sent <= requests && (x.failure.None? ==> x.sent == requests)
    decreases |requests|
  {
    if requests != [] {
      var r := api.handle(api.turn(k, s), requests[0]);
      if r.Ok? { AllSent(api, k + 1, r.value, requests[1..]); }
    }
  }

  function Then(first: Exchange, second: Exchange): Exchange {
    Exchange(second.server, first.sent + second.sent, second.failure)
  }

  lemma {:induction false} ServedInParts(api: Api, k: nat, s: Server, first: seq<Request>, second: seq<Request>)
    ensures var mid := Served(api, k, s, first);
            Served(api, k, s, first + second)
            == (if mid.failure.Some? then mid else Then(mid, Served(api, k + |first|, mid.server, second)))
    decreases |first|
  {
    if first == [] {
      assert first + second == second;
      assert Then(Served(api, k, s, first), Served(api, k, s, second)) == Served(api, k, s, second);
    } else {
      assert (first + second)[0] == first[0] && (first + second)[1..] == first[1..] + second;
      var r := api.handle(api.turn(k, s), first[0]);
      if r.Ok? {
        ServedInParts(api, k + 1, r.value, first[1..], second);
        var rest := Served(api, k + 1, r.value, first[1..]);
        var after := Served(api, k + |first|, rest.server, second);
        assert [first[0]] + (rest.sent + after.sent) == ([first[0]] + rest.sent) + after.sent;
      }
    }
  }

  /** When all requests of two series succeed, so does each series, the second where the first ends. */
  lemma BothServed(api: Api, k: nat, s: Server, first: seq<Request>, second: seq<Request>)
    requires Served(api, k, s, first + second).failure.None?
    ensures var mid := Served(api, k, s, first);
            && mid.failure.None?
            && Served(api, k + |first|, mid.server, second).failure.None?
            && Served(api, k + |first|, mid.server, second).server == Served(api, k, s, first + second).server
  {
    ServedInParts(api, k, s, first, second);
  }

  // ---------------------------------------------------------------------------------------------
  // One triage
  // ---------------------------------------------------------------------------------------------

  predicate AtMost(a: Id, b: Id) { a <= b }

  /** Insertion into an ordered set, listed in order. */
  function InsertId(id: Id, ids: seq<Id>): seq<Id> {
    if ids == [] || id < ids[0] then [id] + ids
    else if id == ids[0] then ids
    else [ids[0]] + InsertId(id, ids[1..])
  }

  /** `dedup_task_ids`: collected into an ordered set and listed from it. */
  function DedupTaskIds(ids: seq<Id>): seq<Id> {
    if ids == [] then [] else InsertId(ids[0], DedupTaskIds(ids[1..]))
  }

  lemma {:induction false} InsertIdMembers(id: Id, ids: seq<Id>)
    ensures forall x :: x in InsertId(id, ids) <==> x in ids || x == id
    decreases |ids|
  {
    if ids != [] {
      InsertIdMembers(id, ids[1..]);
      assert ids == [ids[0]] + ids[1..];
    }
  }

  lemma {:induction false} InsertIdKeepsSorted(id: Id, ids: seq<Id>)
    requires StrictlySorted(AtMost, ids)
    ensures StrictlySorted(AtMost, InsertId(id, ids))
    decreases |ids|
  {
    if ids != [] && id > ids[0] {
      var rest := InsertId(id, ids[1..]);
      InsertIdKeepsSorted(id, ids[1..]);
      InsertIdMembers(id, ids[1..]);
      forall j | 0 <= j < |rest| ensures ids[0] < rest[j] { assert rest[j] in rest; }
    }
  }

  /** The ids are tried once each, in order. */
  lemma {:induction false} DedupTaskIdsListsEach(ids: seq<Id>)
    ensures StrictlySorted(AtMost, DedupTaskIds(ids))
    ensures forall id :: id in DedupTaskIds(ids) <==> id in ids
  {
    if ids != [] {
      DedupTaskIdsListsEach(ids[1..]);
      InsertIdMembers(ids[0], DedupTaskIds(ids[1..]));
      InsertIdKeepsSorted(ids[0], DedupTaskIds(ids[1..]));
      assert ids == [ids[0]] + ids[1..];
    }
  }

  lemma DedupTaskIdsAreDistinct(ids: seq<Id>)
    ensures Distinct(DedupTaskIds(ids)) && forall id :: id in DedupTaskIds(ids) <==> id in ids
  {
    DedupTaskIdsListsEach(ids);
  }

  /**
   * Where a triage stands: the server, the calls made, the requests sent, the three lists, the error that
   * stopped it.
   */
  datatype Trace = Trace(
    server: Server,
    calls: nat,
    requests: seq<Request>,
    updated: seq<Id>,
    completed: seq<Id>,
    untouched: seq<Id>,
    failure: Option<Error>)

  function Start(k: nat, s: Server): Trace {
    Trace(s, k, [], [], [], [], None)
  }

  /** What one task's turn has read, when it goes on to write. */
  datatype Reading = Reading(seen: Server, record: Record, next: Metadata)

  function Read(seen: Server, t: Args, id: Id): Result<Reading, Error> {
    match FetchTask(seen, id)
    case Err(e) => Err(e)
    case Ok(record) =>
      var patched := ApplyMetadataPatch(record.metadata, t.patch);
      if patched.Err? then Err(patched.error) else Ok(Reading(seen, record, patched.value))
  }

  function Needs(t: Args, id: Id, r: Reading): seq<Request> {
    Wanted(t, id, r.record, r.next)
  }

  /** One task's turn: read it, then send what it needs. */
  function TriageOne(api: Api, p: Trace, t: Args, id: Id): Trace {
    var seen := api.turn(p.calls, p.server);
    Turned(api, p, t, id, seen, Read(seen, t, id))
  }

  function Turned(api: Api, p: Trace, t: Args, id: Id, seen: Server, read: Result<Reading, Error>): Trace {
    match read
    case Err(e) => p.(server := seen, calls := p.calls + 1, failure := Some(e))
    case Ok(r) => After(p, t, id, r, Served(api, p.calls + 1, seen, Needs(t, id, r)))
  }

  /** The turn recorded, after the exchange that its reading called for. */
  function After(p: Trace, t: Args, id: Id, r: Reading, x: Exchange): Trace {
    var done := p.(server := x.server, calls := p.calls + 1 + |x.sent|, requests := p.requests + x.sent);
    if x.failure.Some? then done.(failure := x.failure)
    else done.(
      updated := if NeedsUpdate(t, r.record, r.next) then p.updated + [id] else p.updated,
      completed := if NeedsCompletion(t, r.record) then p.completed + [id] else p.completed,
      untouched := if Needs(t, id, r) == [] then p.untouched + [id] else p.untouched)
  }

  /** A turn leaves the server as its exchange leaves it. */
  lemma TurnEndsWithExchange(api: Api, p: Trace, t: Args, id: Id, seen: Server, read: Result<Reading, Error>)
    ensures Turned(api, p, t, id, seen, read).server
         == if read.Ok? then Served(api, p.calls + 1, seen, Needs(t, id, read.value)).server else seen
  {
  }

  lemma TurnSucceeds(api: Api, p: Trace, t: Args, id: Id, seen: Server, read: Result<Reading, Error>)
    requires Turned(api, p, t, id, seen, read).failure.None?
    ensures read.Ok? && Served(api, p.calls + 1, seen, Needs(t, id, read.value)).failure.None?
  {
  }

  /** The tasks one after the other, up to the first failure. */
  function Triaged(api: Api, p: Trace, t: Args, ids: seq<Id>): Trace
    decreases |ids|
  {
    if p.failure.Some? || ids == [] then p else Triaged(api, TriageOne(api, p, t, ids[0]), t, ids[1..])
  }

  lemma TriagedOneMore(api: Api, p: Trace, t: Args, ids: seq<Id>, n: nat)
    requires n < |ids| && p.failure.None?
    ensures Triaged(api, p, t, ids[n..]) == Triaged(api, TriageOne(api, p, t, ids[n]), t, ids[n + 1..])
    ensures TriageOne(api, p, t, ids[n]).failure.Some? ==> Triaged(api, p, t, ids[n..]) == TriageOne(api, p, t, ids[n])
  {
    assert ids[n..][1..] == ids[n + 1..];
  }

  class Client {
    const api: Api
    var server: Server
    var calls: nat
    var sent: seq<Request>

    constructor (api: Api, server: Server)
      ensures this.api == api && this.server == server && calls == 0 && sent == []
    {
      this.api, this.server, calls, sent := api, server, 0, [];
    }

    method FetchTaskSummary(id: Id) returns (r: Result<Record, Error>)
      modifies this
      ensures calls == old(calls) + 1 && sent == old(sent)
      ensures server == api.turn(old(calls), old(server)) && r == FetchTask(server, id)
    {
      server := api.turn(calls, server);
      calls := calls + 1;
      r := FetchTask(server, id);
    }

    method Send(q: Request) returns (failure: Option<Error>)
      modifies this
      ensures calls == old(calls) + 1 && sent == old(sent) + [q]
      ensures Exchange(server, [q], failure) == Served(api, old(calls), old(server), [q])
    {
      server := api.turn(calls, server);
      calls := calls + 1;
      sent := sent + [q];
      match api.handle(server, q)
      case Ok(next) => server := next; failure := None;
      case Err(e) => failure := Some(e);
    }

    /** `triage_task_record` */
    method TriageTaskRecord(t: Args, id: Id, record: Record, next: Metadata) returns (r: Result<Outcome, Error>)
      modifies this
      ensures var x := Served(api, old(calls), old(server), Wanted(t, id, record, next));
              && server == x.server && sent == old(sent) + x.sent && calls == old(calls) + |x.sent|
              && x.failure == (if r.Ok? then None else Some(r.error))
      ensures r.Ok? ==>
                r.value == Outcome(Wanted(t, id, record, next) != [], NeedsCompletion(t, record),
                  NeedsUpdate(t, record, next))
    {
      var outcome := Outcome(false, false, false);
      ServedInParts(api, calls, server, WantedUpdate(t, id, record, next), WantedCompletion(t, id, record));
      if t.epicId.Some? {
        if record.epicId != t.epicId {
          var key := ChildKey(t, UPDATE_EPIC, id);
          var failure := Send(UpdateTask(id, record.title, record.details, t.epicId, next, key));
          if failure.Some? { return Err(failure.value); }
          outcome := outcome.(changed := true, updated := true);
        }
      }
      if !outcome.changed && record.metadata != next {
        var key := ChildKey(t, UPDATE_META, id);
        var failure := Send(UpdateTask(id, record.title, record.details, record.epicId, next, key));
        if failure.Some? { return Err(failure.value); }
        outcome := outcome.(changed := true, updated := true);
      }
      ghost var mid := Served(api, old(calls), old(server), WantedUpdate(t, id, record, next));
      assert server == mid.server && sent == old(sent) + mid.sent && calls == old(calls) + |mid.sent|;
      assert mid.failure.None? && mid.sent == WantedUpdate(t, id, record, next);
      if t.complete && record.status != Completed {
        var failure := Send(CompleteTask(id, ChildKey(t, COMPLETE, id)));
        if failure.Some? { return Err(failure.value); }
        outcome := outcome.(changed := true, completed := true);
      }
      r := Ok(outcome);
    }

    /** One pass of the loop of `triage_tasks`, which carries `p` to `after`. */
    method TriageTask(t: Args, id: Id, ghost p: Trace) returns (r: Result<Outcome, Error>, ghost after: Trace)
      requires p.server == server && p.calls == calls && p.failure.None?
      modifies this
      ensures after == TriageOne(api, p, t, id)
      ensures server == after.server && calls == after.calls
      ensures forall before | old(sent) == before + p.requests :: sent == before + after.requests
      ensures after.failure == (if r.Ok? then None else Some(r.error))
      ensures r.Ok? ==>
                && after.updated == (if r.value.updated then p.updated + [id] else p.updated)
                && after.completed == (if r.value.completed then p.completed + [id] else p.completed)
                && after.untouched == (if r.value.changed then p.untouched else p.untouched + [id])
    {
      after := TriageOne(api, p, t, id);
      var fetched := FetchTaskSummary(id);
      if fetched.Err? { return Err(fetched.error), after; }
      var record := fetched.value;
      var patched := ApplyMetadataPatch(record.metadata, t.patch);
      if patched.Err? { return Err(patched.error), after; }
      ghost var x := Served(api, calls, server, Needs(t, id, Reading(server, record, patched.value)));
      assert forall before :: before + p.requests + x.sent == before + (p.requests + x.sent);
      r := TriageTaskRecord(t, id, record, patched.value);
    }

    /** `triage_tasks` */
    method TriageTasks(t: Args) returns (r: Result<Summary, Error>)
      modifies this
      ensures !HasChanges(t) ==>
              r == Err(BadRequest) && calls == old(calls) && sent == old(sent) && server == old(server)
      ensures HasChanges(t) ==>
                var end := Triaged(api, Start(old(calls), old(server)), t, DedupTaskIds(t.taskIds));
                && server == end.server && calls == end.calls && sent == old(sent) + end.requests
                && r == (if end.failure.Some? then Err(end.failure.value)
                         else if !PriorityParses(t.patch) then Err(BadRequest)
                         else Ok(SummaryOf(t, end)))
    {
      if !HasChanges(t) { return Err(BadRequest); }
      var ids := DedupTaskIds(t.taskIds);
      var completed, untouched, updated := [], [], [];
      ghost var p := Start(calls, server);
      ghost var end := Triaged(api, p, t, ids);
      for n := 0 to |ids|
        invariant end == Triaged(api, p, t, ids[n..])
        invariant p == Trace(server, calls, p.requests, updated, completed, untouched, None)
        invariant sent == old(sent) + p.requests
      {
        TriagedOneMore(api, p, t, ids, n);
        ghost var after;
        var triaged;
        triaged, after := TriageTask(t, ids[n], p);
        if triaged.Err? { return Err(triaged.error); }
        var outcome := triaged.value;
        if outcome.updated { updated := updated + [ids[n]]; }
        if outcome.completed { completed := completed + [ids[n]]; }
        if !outcome.changed { untouched := untouched + [ids[n]]; }
        p := after;
      }
      if !PriorityParses(t.patch) { return Err(BadRequest); }
      var labels :=
        if t.patch.clearLabels then Some([]) else if t.patch.labels == [] then None
          else Some(NormalLabels(t.patch.labels));
      var priority := if t.patch.priority.Some? then Some(Identifier(t.patch.priority.value)) else None;
      r := Ok(Summary(ids, updated, completed, untouched, labels, Owner(t.patch.owner), priority));
    }
  }

  /** The summary shows what the patch asks for: labels and owner in normal form, and nothing where nothing is asked. */
  lemma SummaryShowsThePatch(t: Args, end: Trace)
    ensures var summary, p := SummaryOf(t, end), t.patch;
            && (p.clearLabels ==> summary.labels == Some([]))
            && (!p.clearLabels && p.labels != [] ==>
                  summary.labels.Some? && IsNormalList(Label, p.labels, summary.labels.value))
            && (!p.clearLabels && p.labels == [] ==> summary.labels == None)
            && (p.owner.None? ==> summary.owner == None)
            && (p.owner.Some? ==> NamesOwner(p.owner.value, summary.owner))
            && (p.priority.None? ==> summary.priority == None)
            && (p.priority.Some? ==> summary.priority == Some(Identifier(p.priority.value)))
            && StrictlySorted(AtMost, summary.taskIds)
            && (forall id :: id in summary.taskIds <==> id in t.taskIds)
            && summary.updated == end.updated && summary.completed == end.completed
            && summary.untouched == end.untouched
  {
    DedupTaskIdsListsEach(t.taskIds);
    NormalLabelsAreTheNormalList(t.patch.labels, NormalLabels(t.patch.labels));
    if t.patch.owner.Some? { OwnerIsTheNamedOne(t.patch.owner.value, Owner(t.patch.owner)); }
  }

  /** What a triage that ran to its end reports. */
  function SummaryOf(t: Args, end: Trace): Summary {
    Summary(
      DedupTaskIds(t.taskIds), end.updated, end.completed, end.untouched,
      if t.patch.clearLabels then Some([]) else if t.patch.labels == [] then None
        else Some(NormalLabels(t.patch.labels)),
      Owner(t.patch.owner),
      if t.patch.priority.Some? then Some(Identifier(t.patch.priority.value)) else None)
  }
}
