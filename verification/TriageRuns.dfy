/** What a triage achieves: its reports, and when doing it again does nothing. */
module TriageRuns {
  import opened Common
  import opened Sorting
  import opened Triage
  import opened TriageClient
  import I = Idempotency

  // ---------------------------------------------------------------------------------------------
  // Reports
  // ---------------------------------------------------------------------------------------------

  predicate AsksUpdate(requests: seq<Request>, id: Id) {
    exists q :: q in requests && q.UpdateTask? && q.id == id
  }

  predicate AsksCompletion(requests: seq<Request>, id: Id) {
    exists q :: q in requests && q.CompleteTask? && q.id == id
  }

  /** The three lists of a triage tell which requests were sent. */
  ghost predicate Reports(p: Trace, ids: seq<Id>) {
    && (forall q | q in p.requests :: q.id in ids)
    && (forall id :: id in p.updated <==> AsksUpdate(p.requests, id))
    && (forall id :: id in p.completed <==> AsksCompletion(p.requests, id))
    && (forall id :: id in p.untouched <==> id in ids && id !in p.updated && id !in p.completed)
  }

  lemma OneReports(api: Api, p: Trace, t: Args, done: seq<Id>, id: Id)
    requires Reports(p, done) && id !in done
    requires TriageOne(api, p, t, id).failure.None? && p.failure.None?
    ensures Reports(TriageOne(api, p, t, id), done + [id])
  {
    var seen := api.turn(p.calls, p.server);
    var r := Read(seen, t, id).value;
    AllSent(api, p.calls + 1, seen, Needs(t, id, r));
    ReportsOneMore(p, done, t, id, r.record, r.next, TriageOne(api, p, t, id));
  }

  lemma ReportsOneMore(p: Trace, ids: seq<Id>, t: Args, id: Id, record: Record, next: Metadata, after: Trace)
    requires Reports(p, ids) && id !in ids
    requires after.requests == p.requests + Wanted(t, id, record, next)
    requires after.updated == (if NeedsUpdate(t, record, next) then p.updated + [id] else p.updated)
    requires after.completed == (if NeedsCompletion(t, record) then p.completed + [id] else p.completed)
    requires after.untouched == (if Wanted(t, id, record, next) == [] then p.untouched + [id] else p.untouched)
    ensures Reports(after, ids + [id])
  {
    var more := Wanted(t, id, record, next);
    assert forall q :: q in after.requests <==> q in p.requests || q in more;
    forall other
      ensures AsksUpdate(after.requests, other) <==> AsksUpdate(p.requests, other) || AsksUpdate(more, other)
      ensures AsksCompletion(after.requests, other)
              <==> AsksCompletion(p.requests, other) || AsksCompletion(more, other)
    {
    }
    WantedAsks(t, id, record, next);
  }

  lemma WantedAsks(t: Args, id: Id, record: Record, next: Metadata)
    ensures var more := Wanted(t, id, record, next);
            && (forall q | q in more :: q.id == id)
            && (forall other ::
                  && (AsksUpdate(more, other) <==> other == id && NeedsUpdate(t, record, next))
                  && (AsksCompletion(more, other) <==> other == id && NeedsCompletion(t, record)))
  {
    var more := Wanted(t, id, record, next);
    if NeedsUpdate(t, record, next) { assert WantedUpdate(t, id, record, next)[0] in more; }
    if NeedsCompletion(t, record) { assert WantedCompletion(t, id, record)[0] in more; }
  }

  lemma {:induction false} ReportsToTheEnd(api: Api, p: Trace, t: Args, done: seq<Id>, ids: seq<Id>)
    requires Reports(p, done) && Distinct(done + ids)
    requires Triaged(api, p, t, ids).failure.None?
    ensures Reports(Triaged(api, p, t, ids), done + ids)
    decreases |ids|
  {
    if ids == [] {
      assert done + ids == done;
    } else {
      assert done + ids == (done + [ids[0]]) + ids[1..];
      assert (done + ids)[|done|] == ids[0] && forall i | 0 <= i < |done| :: (done + ids)[i] == done[i];
      OneStepOn(api, p, t, ids);
      OneReports(api, p, t, done, ids[0]);
      ReportsToTheEnd(api, TriageOne(api, p, t, ids[0]), t, done + [ids[0]], ids[1..]);
    }
  }

  lemma OneStepOn(api: Api, p: Trace, t: Args, ids: seq<Id>)
    requires Triaged(api, p, t, ids).failure.None? && ids != []
    ensures p.failure.None? && TriageOne(api, p, t, ids[0]).failure.None?
  {
  }

  lemma NothingToReport(k: nat, s: Server)
    ensures Reports(Start(k, s), [])
  {
  }

  lemma ReportsOnSameIds(p: Trace, ids: seq<Id>, same: seq<Id>)
    requires Reports(p, ids) && forall id :: id in ids <==> id in same
    ensures Reports(p, same)
  {
  }

  /**
   * Whatever others write, the lists of a summary tell what was sent: each task is untouched exactly
   * when it is neither updated nor completed.
   */
  lemma TriageReports(api: Api, k: nat, s: Server, t: Args)
    requires Triaged(api, Start(k, s), t, DedupTaskIds(t.taskIds)).failure.None?
    ensures Reports(Triaged(api, Start(k, s), t, DedupTaskIds(t.taskIds)), t.taskIds)
  {
    var ids := DedupTaskIds(t.taskIds);
    DedupTaskIdsAreDistinct(t.taskIds);
    ReportsFromTheStart(api, k, s, t, ids);
    ReportsOnSameIds(Triaged(api, Start(k, s), t, ids), ids, t.taskIds);
  }

  lemma ReportsFromTheStart(api: Api, k: nat, s: Server, t: Args, ids: seq<Id>)
    requires Distinct(ids) && Triaged(api, Start(k, s), t, ids).failure.None?
    ensures Reports(Triaged(api, Start(k, s), t, ids), ids)
  {
    assert [] + ids == ids;
    NothingToReport(k, s);
    ReportsToTheEnd(api, Start(k, s), t, [], ids);
  }

  // ---------------------------------------------------------------------------------------------
  // What one task's turn settles, with no other writer
  // ---------------------------------------------------------------------------------------------

  ghost predicate AnyFindsReceipt(s: Server, t: Args, requests: seq<Request>) {
    exists q :: q in requests && FindsReceipt(s, t, q)
  }

  /** The tasks from which nothing is missing. */
  ghost function SettledTasks(s: Server, t: Args): iset<Id> {
    iset id | Settled(s, t, id)
  }

  /** Some request that the task needs would be answered from a receipt. */
  ghost predicate IsAnswered(s: Server, t: Args, id: Id) {
    var read := Read(s, t, id);
    read.Ok? && AnyFindsReceipt(s, t, Needs(t, id, read.value))
  }

  lemma OneRequestServed(api: Api, k: nat, s: Server, t: Args, q: Request)
    requires Answers(api, t) && Served(api, k, s, [q]).failure.None?
    ensures Handle(api.turn(k, s), t, q).Ok?
    ensures Served(api, k, s, [q]).server == Handle(api.turn(k, s), t, q).value
  {
    assert [q][1..] == [];
  }

  lemma ServedUpdateSettles(api: Api, k: nat, s: Server, t: Args, id: Id, record: Record, next: Metadata)
    requires Quiet(api) && Answers(api, t)
    requires FetchTask(s, id) == Ok(record) && ApplyMetadataPatch(record.metadata, t.patch) == Ok(next)
    requires Served(api, k, s, WantedUpdate(t, id, record, next)).failure.None?
    ensures var end := Served(api, k, s, WantedUpdate(t, id, record, next)).server;
            && UpToDate(end, t, id) == !AnyFindsReceipt(s, t, WantedUpdate(t, id, record, next))
            && Exists(end, id) && end.columns[id].status == record.status
  {
    var wanted := WantedUpdate(t, id, record, next);
    if wanted != [] {
      assert wanted == [wanted[0]];
      OneRequestServed(api, k, s, t, wanted[0]);
      UpdateSettles(api.turn(k, s), t, id, record, next);
      assert FindsReceipt(s, t, wanted[0]) <==> FindsReceipt(api.turn(k, s), t, wanted[0]);
    }
  }

  lemma ServedCompletionSettles(api: Api, k: nat, s: Server, t: Args, id: Id, record: Record)
    requires Quiet(api) && Answers(api, t)
    requires Exists(s, id) && s.columns[id].status == record.status
    requires Served(api, k, s, WantedCompletion(t, id, record)).failure.None?
    ensures var end := Served(api, k, s, WantedCompletion(t, id, record)).server;
            Settled(end, t, id)
            <==> UpToDate(s, t, id) && !AnyFindsReceipt(s, t, WantedCompletion(t, id, record))
  {
    var wanted := WantedCompletion(t, id, record);
    if wanted != [] {
      assert wanted == [wanted[0]];
      OneRequestServed(api, k, s, t, wanted[0]);
      CompletionSettles(api.turn(k, s), t, id, record);
      assert FindsReceipt(s, t, wanted[0]) <==> FindsReceipt(api.turn(k, s), t, wanted[0]);
    }
  }

  /** What one task's update adds to the receipts has no bearing on its completion. */
  lemma UpdateLeavesCompletionKey(api: Api, k: nat, s: Server, t: Args, id: Id, record: Record, next: Metadata)
    requires Quiet(api) && Answers(api, t)
    requires Served(api, k, s, WantedUpdate(t, id, record, next)).failure.None?
    ensures var end := Served(api, k, s, WantedUpdate(t, id, record, next)).server;
            var wanted := WantedCompletion(t, id, record);
            AnyFindsReceipt(end, t, wanted) == AnyFindsReceipt(s, t, wanted)
  {
    var wanted := WantedUpdate(t, id, record, next);
    if wanted != [] {
      assert wanted == [wanted[0]];
      OneRequestServed(api, k, s, t, wanted[0]);
      HandleKeepsReceipts(api.turn(k, s), t, wanted[0]);
      var end := Served(api, k, s, wanted).server;
      forall q | q in WantedCompletion(t, id, record) ensures FindsReceipt(end, t, q) <==> FindsReceipt(s, t, q) {
        assert ReceiptKey(t, q).Some? ==> ReceiptKey(t, q) != ReceiptKey(t, wanted[0]);
      }
    }
  }

  /**
   * With no other writer, a task whose requests all succeed ends up settled exactly when none of them is
   * answered from a receipt, however much time passes.
   */
  lemma RequestsSettle(api: Api, k: nat, s: Server, t: Args, id: Id, record: Record, next: Metadata)
    requires Quiet(api) && Answers(api, t)
    requires FetchTask(s, id) == Ok(record) && ApplyMetadataPatch(record.metadata, t.patch) == Ok(next)
    requires Served(api, k, s, Wanted(t, id, record, next)).failure.None?
    ensures (id in SettledTasks(Served(api, k, s, Wanted(t, id, record, next)).server, t))
         == !AnyFindsReceipt(s, t, Wanted(t, id, record, next))
  {
    var update, completion := WantedUpdate(t, id, record, next), WantedCompletion(t, id, record);
    BothServed(api, k, s, update, completion);
    ServedUpdateSettles(api, k, s, t, id, record, next);
    UpdateLeavesCompletionKey(api, k, s, t, id, record, next);
    CompletionAfterUpdate(api, k + |update|, s, Served(api, k, s, update).server, t, id, record, update, completion);
  }

  lemma CompletionAfterUpdate(api: Api, k: nat, s: Server, mid: Server, t: Args, id: Id, record: Record,
      update: seq<Request>, completion: seq<Request>)
    requires Quiet(api) && Answers(api, t)
    requires completion == WantedCompletion(t, id, record) && Served(api, k, mid, completion).failure.None?
    requires Exists(mid, id) && mid.columns[id].status == record.status
    requires UpToDate(mid, t, id) == !AnyFindsReceipt(s, t, update)
    requires AnyFindsReceipt(mid, t, completion) == AnyFindsReceipt(s, t, completion)
    ensures (id in SettledTasks(Served(api, k, mid, completion).server, t))
         == !AnyFindsReceipt(s, t, update + completion)
  {
    ServedCompletionSettles(api, k, mid, t, id, record);
    FoundInParts(s, t, update, completion);
  }

  lemma FoundInParts(s: Server, t: Args, first: seq<Request>, second: seq<Request>)
    ensures AnyFindsReceipt(s, t, first + second) == (AnyFindsReceipt(s, t, first) || AnyFindsReceipt(s, t, second))
  {
    assert forall q :: q in first + second <==> q in first || q in second;
  }

  // ---------------------------------------------------------------------------------------------
  // What the turns of other tasks change
  // ---------------------------------------------------------------------------------------------

  /** Every receipt of `base` is kept, and every new one is for a task among `done`. */
  ghost predicate ReceiptsFrom(base: Server, s: Server, done: seq<Id>) {
    && (forall k | k in base.receipts :: k in s.receipts)
    && (forall k | k in s.receipts && k !in base.receipts :: s.receipts[k].payload.id in done)
  }

  ghost predicate KeepsPayloads(s: Server, next: Server) {
    forall k | k in s.receipts :: k in next.receipts && next.receipts[k].payload == s.receipts[k].payload
  }

  /** Requests for one task leave every other task's columns alone, and add receipts for that task only. */
  lemma {:induction false} ServedTouchesOneTask(api: Api, k: nat, s: Server, t: Args, id: Id, requests: seq<Request>,
      other: Id)
    requires Quiet(api) && Answers(api, t) && (forall q | q in requests :: q.id == id)
    ensures var end := Served(api, k, s, requests).server;
            && (other != id ==> SameColumns(s, end, other))
            && KeepsPayloads(s, end)
            && (forall key | key in end.receipts && key !in s.receipts :: end.receipts[key].payload.id == id)
    decreases |requests|
  {
    if requests != [] {
      var seen := api.turn(k, s);
      var r := Handle(seen, t, requests[0]);
      if r.Ok? {
        if other != id { HandleLeavesOthers(seen, t, requests[0], other); }
        HandleKeepsReceipts(seen, t, requests[0]);
        ServedTouchesOneTask(api, k + 1, r.value, t, id, requests[1..], other);
      }
    }
  }

  /** A request that succeeds finds no receipt but one for its own task. */
  lemma {:induction false} ServedReceiptsMatch(api: Api, k: nat, s: Server, t: Args, requests: seq<Request>, q: Request)
    requires Quiet(api) && Answers(api, t) && Served(api, k, s, requests).failure.None?
    requires q in requests && FindsReceipt(s, t, q)
    ensures s.receipts[ReceiptKey(t, q).value].payload.id == q.id
    decreases |requests|
  {
    var seen := api.turn(k, s);
    var r := Handle(seen, t, requests[0]);
    HandleKeepsReceipts(seen, t, requests[0]);
    if q != requests[0] {
      assert q in requests[1..];
      ServedReceiptsMatch(api, k + 1, r.value, t, requests[1..], q);
    }
  }

  lemma NeedsAreOwn(t: Args, id: Id, r: Reading)
    ensures forall q | q in Needs(t, id, r) :: q.id == id
  {
  }

  ghost predicate SameKeys(t: Args, xs: seq<Request>, ys: seq<Request>) {
    |xs| == |ys| && forall i | 0 <= i < |xs| :: ReceiptKey(t, xs[i]) == ReceiptKey(t, ys[i])
  }

  /** The keys of what a task needs do not depend on its text. */
  lemma TextIsNotInKeys(t: Args, id: Id, a: Record, b: Record, next: Metadata)
    requires a.status == b.status && a.epicId == b.epicId && a.metadata == b.metadata
    ensures SameKeys(t, Wanted(t, id, a, next), Wanted(t, id, b, next))
  {
    assert SameKeys(t, WantedUpdate(t, id, a, next), WantedUpdate(t, id, b, next));
    assert WantedCompletion(t, id, a) == WantedCompletion(t, id, b);
  }

  lemma SameColumnsSameKeys(a: Server, b: Server, t: Args, id: Id)
    requires SameColumns(a, b, id)
    ensures Read(a, t, id).Ok? == Read(b, t, id).Ok?
    ensures Read(a, t, id).Ok? ==>
              SameKeys(t, Needs(t, id, Read(a, t, id).value), Needs(t, id, Read(b, t, id).value))
  {
    if Read(a, t, id).Ok? {
      TextIsNotInKeys(t, id, Read(a, t, id).value.record, Read(b, t, id).value.record, Read(a, t, id).value.next);
    }
  }

  lemma SameKeysFindTheSame(s: Server, t: Args, xs: seq<Request>, ys: seq<Request>)
    requires SameKeys(t, xs, ys)
    ensures AnyFindsReceipt(s, t, xs) == AnyFindsReceipt(s, t, ys)
  {
    if q :| q in xs && FindsReceipt(s, t, q) {
      var i :| 0 <= i < |xs| && xs[i] == q;
      assert ys[i] in ys && FindsReceipt(s, t, ys[i]);
    }
    if q :| q in ys && FindsReceipt(s, t, q) {
      var i :| 0 <= i < |ys| && ys[i] == q;
      assert xs[i] in xs && FindsReceipt(s, t, xs[i]);
    }
  }

  /** A request that succeeds finds at its turn the receipts that it would have found from the start. */
  lemma FoundFromTheStart(api: Api, k: nat, base: Server, s: Server, t: Args, id: Id, requests: seq<Request>,
      done: seq<Id>)
    requires Quiet(api) && Answers(api, t) && id !in done && ReceiptsFrom(base, s, done)
    requires Served(api, k, s, requests).failure.None? && forall q | q in requests :: q.id == id
    ensures AnyFindsReceipt(s, t, requests) == AnyFindsReceipt(base, t, requests)
  {
    forall q | q in requests ensures FindsReceipt(s, t, q) == FindsReceipt(base, t, q) {
      if FindsReceipt(s, t, q) { ServedReceiptsMatch(api, k, s, t, requests, q); }
    }
  }

  lemma AnsweredFromTheStart(api: Api, k: nat, base: Server, s: Server, t: Args, id: Id, done: seq<Id>)
    requires Quiet(api) && Answers(api, t) && id !in done
    requires ReceiptsFrom(base, s, done) && SameColumns(base, s, id)
    requires Read(s, t, id).Ok? && Served(api, k, s, Needs(t, id, Read(s, t, id).value)).failure.None?
    ensures AnyFindsReceipt(s, t, Needs(t, id, Read(s, t, id).value)) <==> IsAnswered(base, t, id)
  {
    var now, was := Needs(t, id, Read(s, t, id).value), Needs(t, id, Read(base, t, id).value);
    SameColumnsSameKeys(base, s, t, id);
    NeedsAreOwn(t, id, Read(s, t, id).value);
    FoundFromTheStart(api, k, base, s, t, id, now, done);
    SameKeysFindTheSame(base, t, was, now);
  }

  // ---------------------------------------------------------------------------------------------
  // What a triage settles, with no other writer
  // ---------------------------------------------------------------------------------------------

  /** The tasks some of whose requests would be answered from receipts. */
  ghost function AnsweredTasks(s: Server, t: Args): iset<Id> {
    iset id | IsAnswered(s, t, id)
  }

  /** The tasks whose columns both servers agree on. */
  ghost function TasksInCommon(a: Server, b: Server): iset<Id> {
    iset id | SameColumns(a, b, id)
  }

  ghost function ServersFrom(base: Server, done: seq<Id>): iset<Server> {
    iset s | ReceiptsFrom(base, s, done)
  }

  lemma OneSettles(api: Api, base: Server, p: Trace, t: Args, done: seq<Id>, id: Id)
    requires Quiet(api) && Answers(api, t) && p.failure.None? && TriageOne(api, p, t, id).failure.None?
    requires id !in done && p.server in ServersFrom(base, done) && id in TasksInCommon(base, p.server)
    ensures id in SettledTasks(TriageOne(api, p, t, id).server, t) <==> id !in AnsweredTasks(base, t)
  {
    var seen := api.turn(p.calls, p.server);
    TurnSettles(api, base, p, t, done, id, seen, Read(seen, t, id));
  }

  lemma TurnSettles(api: Api, base: Server, p: Trace, t: Args, done: seq<Id>, id: Id, seen: Server,
      read: Result<Reading, Error>)
    requires Quiet(api) && Answers(api, t) && p.failure.None?
    requires read == Read(seen, t, id) && Turned(api, p, t, id, seen, read).failure.None?
    requires id !in done && seen in ServersFrom(base, done) && id in TasksInCommon(base, seen)
    ensures id in SettledTasks(Turned(api, p, t, id, seen, read).server, t) <==> id !in AnsweredTasks(base, t)
  {
    TurnEndsWithExchange(api, p, t, id, seen, read);
    TurnSucceeds(api, p, t, id, seen, read);
    ReadingSettles(api, p.calls + 1, base, seen, t, done, id, read.value);
  }

  lemma ReadingSettles(api: Api, k: nat, base: Server, seen: Server, t: Args, done: seq<Id>, id: Id, r: Reading)
    requires Quiet(api) && Answers(api, t)
    requires id !in done && seen in ServersFrom(base, done) && id in TasksInCommon(base, seen)
    requires Read(seen, t, id) == Ok(r) && Served(api, k, seen, Needs(t, id, r)).failure.None?
    ensures id in SettledTasks(Served(api, k, seen, Needs(t, id, r)).server, t) <==> id !in AnsweredTasks(base, t)
  {
    RequestsSettle(api, k, seen, t, id, r.record, r.next);
    AnsweredFromTheStart(api, k, base, seen, t, id, done);
  }

  lemma OneTouchesOneTask(api: Api, base: Server, p: Trace, t: Args, done: seq<Id>, id: Id, other: Id)
    requires Quiet(api) && Answers(api, t)
    ensures p.server in ServersFrom(base, done) ==> TriageOne(api, p, t, id).server in ServersFrom(base, done + [id])
    ensures other != id ==> other in TasksInCommon(p.server, TriageOne(api, p, t, id).server)
  {
    var seen := api.turn(p.calls, p.server);
    TurnTouchesOneTask(api, base, p, t, done, id, seen, Read(seen, t, id), other);
    LaterIsInCommon(base, p.server, seen.clock, done, TriageOne(api, p, t, id).server, other);
  }

  lemma LaterIsInCommon(base: Server, s: Server, now: Time, done: seq<Id>, end: Server, other: Id)
    ensures s in ServersFrom(base, done) <==> s.(clock := now) in ServersFrom(base, done)
    ensures other in TasksInCommon(s, end) <==> other in TasksInCommon(s.(clock := now), end)
  {
  }

  lemma TurnTouchesOneTask(api: Api, base: Server, p: Trace, t: Args, done: seq<Id>, id: Id, seen: Server,
      read: Result<Reading, Error>, other: Id)
    requires Quiet(api) && Answers(api, t)
    ensures seen in ServersFrom(base, done) ==>
              Turned(api, p, t, id, seen, read).server in ServersFrom(base, done + [id])
    ensures other != id ==> other in TasksInCommon(seen, Turned(api, p, t, id, seen, read).server)
  {
    TurnEndsWithExchange(api, p, t, id, seen, read);
    if read.Ok? {
      NeedsAreOwn(t, id, read.value);
      RequestsTouchOneTask(api, p.calls + 1, base, seen, t, done, id, Needs(t, id, read.value), other);
    } else {
      StillFrom(base, seen, seen, done, id);
    }
  }

  lemma RequestsTouchOneTask(api: Api, k: nat, base: Server, s: Server, t: Args, done: seq<Id>, id: Id,
      requests: seq<Request>, other: Id)
    requires Quiet(api) && Answers(api, t) && (forall q | q in requests :: q.id == id)
    ensures s in ServersFrom(base, done) ==> Served(api, k, s, requests).server in ServersFrom(base, done + [id])
    ensures other != id ==> other in TasksInCommon(s, Served(api, k, s, requests).server)
  {
    ServedTouchesOneTask(api, k, s, t, id, requests, other);
    StillFrom(base, s, Served(api, k, s, requests).server, done, id);
  }

  lemma StillFrom(base: Server, s: Server, end: Server, done: seq<Id>, id: Id)
    requires KeepsPayloads(s, end)
    requires forall key | key in end.receipts && key !in s.receipts :: end.receipts[key].payload.id == id
    ensures s in ServersFrom(base, done) ==> end in ServersFrom(base, done + [id])
  {
  }

  lemma InCommonTransitive(a: Server, b: Server, c: Server, id: Id)
    requires id in TasksInCommon(a, b) && id in TasksInCommon(b, c)
    ensures id in TasksInCommon(a, c)
  {
  }

  lemma InCommonWithItself(s: Server, id: Id)
    ensures id in TasksInCommon(s, s)
  {
  }

  lemma SettledInCommon(a: Server, b: Server, t: Args, id: Id)
    requires id in TasksInCommon(a, b)
    ensures id in SettledTasks(a, t) <==> id in SettledTasks(b, t)
  {
    SettledBySameColumns(a, b, t, id);
  }

  lemma {:induction false} TriageTouchesNoOther(api: Api, p: Trace, t: Args, ids: seq<Id>, other: Id)
    requires Quiet(api) && Answers(api, t) && other !in ids
    ensures other in TasksInCommon(p.server, Triaged(api, p, t, ids).server)
    decreases |ids|
  {
    if p.failure.Some? || ids == [] {
      InCommonWithItself(p.server, other);
    } else {
      var next := TriageOne(api, p, t, ids[0]);
      OneTouchesOneTask(api, p.server, p, t, [], ids[0], other);
      TriageTouchesNoOther(api, next, t, ids[1..], other);
      InCommonTransitive(p.server, next.server, Triaged(api, p, t, ids).server, other);
    }
  }

  /** What is left of a triage settles each of its tasks that no receipt answers. */
  lemma {:induction false} RestSettles(api: Api, base: Server, p: Trace, t: Args, done: seq<Id>, ids: seq<Id>)
    requires Quiet(api) && Answers(api, t) && Distinct(done + ids)
    requires Triaged(api, p, t, ids).failure.None?
    requires p.server in ServersFrom(base, done) && forall id | id in ids :: id in TasksInCommon(base, p.server)
    ensures var end := Triaged(api, p, t, ids).server;
            forall id | id in ids :: id in SettledTasks(end, t) <==> id !in AnsweredTasks(base, t)
    decreases |ids|
  {
    if ids != [] {
      var id, next := ids[0], TriageOne(api, p, t, ids[0]);
      FirstIsNew(done, ids);
      OneStepOn(api, p, t, ids);
      OneSettles(api, base, p, t, done, id);
      forall other | other in ids[1..] ensures other in TasksInCommon(base, next.server) {
        assert other in ids;
        OneTouchesOneTask(api, base, p, t, done, id, other);
        InCommonTransitive(base, p.server, next.server, other);
      }
      OneTouchesOneTask(api, base, p, t, done, id, id);
      RestSettles(api, base, next, t, done + [id], ids[1..]);
      TriageTouchesNoOther(api, next, t, ids[1..], id);
      SettledInCommon(next.server, Triaged(api, p, t, ids).server, t, id);
    }
  }

  lemma FirstIsNew(done: seq<Id>, ids: seq<Id>)
    requires ids != [] && Distinct(done + ids)
    ensures ids[0] !in done && ids[0] !in ids[1..] && Distinct((done + [ids[0]]) + ids[1..])
  {
    assert (done + [ids[0]]) + ids[1..] == done + ids;
    assert (done + ids)[|done|] == ids[0];
    forall i | 0 <= i < |done| ensures done[i] != ids[0] { assert (done + ids)[i] == done[i]; }
    forall i | 0 <= i < |ids[1..]| ensures ids[1..][i] != ids[0] {
      assert (done + ids)[|done| + 1 + i] == ids[1..][i];
    }
  }

  /**
   * With no other writer, a triage that succeeds leaves a listed task settled exactly when no request that
   * the task needed at the start had a receipt under its child key.
   */
  lemma TriageSettles(api: Api, k: nat, s: Server, t: Args)
    requires Quiet(api) && Answers(api, t)
    requires Triaged(api, Start(k, s), t, DedupTaskIds(t.taskIds)).failure.None?
    ensures var end := Triaged(api, Start(k, s), t, DedupTaskIds(t.taskIds)).server;
            forall id | id in t.taskIds :: id in SettledTasks(end, t) <==> id !in AnsweredTasks(s, t)
  {
    DedupTaskIdsAreDistinct(t.taskIds);
    SettlesFromTheStart(api, k, s, t, DedupTaskIds(t.taskIds));
  }

  lemma SettlesFromTheStart(api: Api, k: nat, s: Server, t: Args, ids: seq<Id>)
    requires Quiet(api) && Answers(api, t) && Distinct(ids)
    requires Triaged(api, Start(k, s), t, ids).failure.None?
    ensures var end := Triaged(api, Start(k, s), t, ids).server;
            forall id | id in ids :: id in SettledTasks(end, t) <==> id !in AnsweredTasks(s, t)
  {
    assert [] + ids == ids;
    StartsFromItself(s, ids);
    RestSettles(api, s, Start(k, s), t, [], ids);
  }

  lemma StartsFromItself(s: Server, ids: seq<Id>)
    ensures s in ServersFrom(s, []) && forall id | id in ids :: id in TasksInCommon(s, s)
  {
  }

  // ---------------------------------------------------------------------------------------------
  // What a triage does to the columns, with no other writer
  // ---------------------------------------------------------------------------------------------

  /** The tasks that kept whatever the triage was not asked to change. */
  ghost function KeptTasks(base: Server, s: Server, t: Args): iset<Id> {
    iset id | Exists(base, id) && Exists(s, id) && KeepsUnasked(base.columns[id], s.columns[id], t)
  }

  lemma KeptTransitive(a: Server, b: Server, c: Server, t: Args, id: Id)
    requires id in KeptTasks(a, b, t) && id in KeptTasks(b, c, t)
    ensures id in KeptTasks(a, c, t)
  {
  }

  lemma KeptInCommon(a: Server, b: Server, c: Server, t: Args, id: Id)
    ensures id in TasksInCommon(a, b) && id in KeptTasks(b, c, t) ==> id in KeptTasks(a, c, t)
    ensures id in KeptTasks(a, b, t) && id in TasksInCommon(b, c) ==> id in KeptTasks(a, c, t)
  {
  }

  lemma ServedUpdateKeeps(api: Api, k: nat, s: Server, t: Args, id: Id, record: Record, next: Metadata)
    requires Quiet(api) && Answers(api, t)
    requires FetchTask(s, id) == Ok(record) && ApplyMetadataPatch(record.metadata, t.patch) == Ok(next)
    requires Served(api, k, s, WantedUpdate(t, id, record, next)).failure.None?
    ensures id in KeptTasks(s, Served(api, k, s, WantedUpdate(t, id, record, next)).server, t)
  {
    var wanted := WantedUpdate(t, id, record, next);
    if wanted != [] {
      assert wanted == [wanted[0]];
      OneRequestServed(api, k, s, t, wanted[0]);
      UpdateKeepsUnasked(api.turn(k, s), t, id, record, next);
    }
  }

  lemma ServedCompletionKeeps(api: Api, k: nat, s: Server, t: Args, id: Id, record: Record)
    requires Quiet(api) && Answers(api, t) && Exists(s, id)
    requires Served(api, k, s, WantedCompletion(t, id, record)).failure.None?
    ensures id in KeptTasks(s, Served(api, k, s, WantedCompletion(t, id, record)).server, t)
  {
    var wanted := WantedCompletion(t, id, record);
    if wanted != [] {
      assert wanted == [wanted[0]];
      OneRequestServed(api, k, s, t, wanted[0]);
      CompletionKeepsUnasked(api.turn(k, s), t, id, record);
    }
  }

  lemma RequestsKeep(api: Api, k: nat, s: Server, t: Args, id: Id, record: Record, next: Metadata)
    requires Quiet(api) && Answers(api, t)
    requires FetchTask(s, id) == Ok(record) && ApplyMetadataPatch(record.metadata, t.patch) == Ok(next)
    requires Served(api, k, s, Wanted(t, id, record, next)).failure.None?
    ensures id in KeptTasks(s, Served(api, k, s, Wanted(t, id, record, next)).server, t)
  {
    var update, completion := WantedUpdate(t, id, record, next), WantedCompletion(t, id, record);
    var mid := Served(api, k, s, update).server;
    BothServed(api, k, s, update, completion);
    ServedUpdateKeeps(api, k, s, t, id, record, next);
    ServedCompletionKeeps(api, k + |update|, mid, t, id, record);
    KeptTransitive(s, mid, Served(api, k, s, update + completion).server, t, id);
  }

  lemma TurnKeeps(api: Api, p: Trace, t: Args, id: Id, seen: Server, read: Result<Reading, Error>)
    requires Quiet(api) && Answers(api, t) && p.failure.None?
    requires read == Read(seen, t, id) && Turned(api, p, t, id, seen, read).failure.None?
    ensures id in KeptTasks(seen, Turned(api, p, t, id, seen, read).server, t)
  {
    TurnEndsWithExchange(api, p, t, id, seen, read);
    TurnSucceeds(api, p, t, id, seen, read);
    RequestsKeep(api, p.calls + 1, seen, t, id, read.value.record, read.value.next);
  }

  lemma OneKeeps(api: Api, p: Trace, t: Args, id: Id)
    requires Quiet(api) && Answers(api, t) && p.failure.None? && TriageOne(api, p, t, id).failure.None?
    ensures id in KeptTasks(p.server, TriageOne(api, p, t, id).server, t)
  {
    var seen := api.turn(p.calls, p.server);
    TurnKeeps(api, p, t, id, seen, Read(seen, t, id));
    LaterKeeps(p.server, seen.clock, TriageOne(api, p, t, id).server, t, id);
  }

  lemma LaterKeeps(s: Server, now: Time, end: Server, t: Args, id: Id)
    ensures id in KeptTasks(s, end, t) <==> id in KeptTasks(s.(clock := now), end, t)
  {
  }

  lemma {:induction false} TriageKeeps(api: Api, p: Trace, t: Args, ids: seq<Id>, id: Id)
    requires Quiet(api) && Answers(api, t) && Distinct(ids) && id in ids
    requires Triaged(api, p, t, ids).failure.None?
    ensures id in KeptTasks(p.server, Triaged(api, p, t, ids).server, t)
    decreases |ids|
  {
    RestIsDistinct(ids);
    OneStepOn(api, p, t, ids);
    if id == ids[0] {
      FirstKeeps(api, p, t, ids);
    } else {
      OneTouchesOneTask(api, p.server, p, t, [], ids[0], id);
      TriageKeeps(api, TriageOne(api, p, t, ids[0]), t, ids[1..], id);
      KeptInCommon(p.server, TriageOne(api, p, t, ids[0]).server, Triaged(api, p, t, ids).server, t, id);
    }
  }

  lemma FirstKeeps(api: Api, p: Trace, t: Args, ids: seq<Id>)
    requires Quiet(api) && Answers(api, t) && ids != [] && ids[0] !in ids[1..]
    requires p.failure.None? && TriageOne(api, p, t, ids[0]).failure.None?
    ensures ids[0] in KeptTasks(p.server, Triaged(api, p, t, ids).server, t)
  {
    var next := TriageOne(api, p, t, ids[0]);
    OneKeeps(api, p, t, ids[0]);
    TriageTouchesNoOther(api, next, t, ids[1..], ids[0]);
    KeptInCommon(p.server, next.server, Triaged(api, p, t, ids).server, t, ids[0]);
  }

  lemma RestIsDistinct(ids: seq<Id>)
    requires Distinct(ids)
    ensures ids != [] ==> ids[0] !in ids[1..] && Distinct(ids[1..])
    ensures forall id | id in ids :: id == ids[0] || id in ids[1..]
  {
  }

  /**
   * With no other writer, after a triage that succeeds each listed task that no receipt answers holds
   * exactly what was asked for: the labels, owner, priority, epic and status named, and the rest as before.
   * A listed task that some receipt answers has at least nothing changed that was not asked for.
   */
  lemma TriageDoesWhatIsAsked(api: Api, k: nat, s: Server, t: Args, id: Id)
    requires Quiet(api) && Answers(api, t) && id in t.taskIds
    requires Triaged(api, Start(k, s), t, DedupTaskIds(t.taskIds)).failure.None?
    ensures var end := Triaged(api, Start(k, s), t, DedupTaskIds(t.taskIds)).server;
            && Exists(s, id) && Exists(end, id)
            && KeepsUnasked(s.columns[id], end.columns[id], t)
            && (id !in AnsweredTasks(s, t) ==> IsDone(s.columns[id], end.columns[id], t))
  {
    var ids := DedupTaskIds(t.taskIds);
    var end := Triaged(api, Start(k, s), t, ids).server;
    DedupTaskIdsAreDistinct(t.taskIds);
    TriageKeeps(api, Start(k, s), t, ids, id);
    IdleMeansSettled(api, Start(k, s), t, ids);
    if id !in AnsweredTasks(s, t) {
      TriageSettles(api, k, s, t);
      assert id in SettledTasks(end, t);
      SettledAndKeptIsDone(s, end, t, id);
    }
  }

  // ---------------------------------------------------------------------------------------------
  // The fixpoint, with no other writer
  // ---------------------------------------------------------------------------------------------

  lemma LaterIsSettled(s: Server, now: Time, t: Args, id: Id)
    ensures id in SettledTasks(s, t) <==> id in SettledTasks(s.(clock := now), t)
  {
  }

  lemma SettledTurnIsIdle(api: Api, p: Trace, t: Args, id: Id)
    requires Quiet(api) && PriorityParses(t.patch) && Settled(p.server, t, id) && p.failure.None?
    ensures TriageOne(api, p, t, id)
         == p.(server := api.turn(p.calls, p.server), calls := p.calls + 1, untouched := p.untouched + [id])
  {
    var seen := api.turn(p.calls, p.server);
    SettledNeedsNothing(seen, t, id);
    assert p.requests + [] == p.requests;
  }

  lemma AppendInTwo(a: seq<Id>, b: seq<Id>)
    requires b != []
    ensures a + [b[0]] + b[1..] == a + b
  {
  }

  /** A triage of settled tasks sends nothing, changes nothing and reports every task untouched. */
  lemma {:induction false} SettledTriageIsIdle(api: Api, p: Trace, t: Args, ids: seq<Id>)
    requires Quiet(api) && PriorityParses(t.patch) && p.failure.None?
    requires (iset id | id in ids) <= SettledTasks(p.server, t)
    ensures var end := Triaged(api, p, t, ids);
            end == p.(server := p.server.(clock := end.server.clock),
                      calls := p.calls + |ids|,
                      untouched := p.untouched + ids)
    decreases |ids|
  {
    if ids == [] {
      assert p.untouched + ids == p.untouched;
    } else {
      var next := p.(server := api.turn(p.calls, p.server), calls := p.calls + 1, untouched := p.untouched + [ids[0]]);
      assert ids[0] in ids && ids[0] in SettledTasks(p.server, t);
      SettledTurnIsIdle(api, p, t, ids[0]);
      assert next.server == p.server.(clock := next.server.clock);
      forall id | id in ids[1..] ensures id in SettledTasks(next.server, t) {
        assert id in ids;
        LaterIsSettled(p.server, next.server.clock, t, id);
      }
      SettledTriageIsIdle(api, next, t, ids[1..]);
      AppendInTwo(p.untouched, ids);
    }
  }

  lemma TurnSendsOrSettled(api: Api, p: Trace, t: Args, id: Id)
    requires Quiet(api) && p.failure.None? && TriageOne(api, p, t, id).failure.None?
    ensures PriorityParses(t.patch) && p.requests <= TriageOne(api, p, t, id).requests
    ensures TriageOne(api, p, t, id).requests == p.requests ==>
              id in SettledTasks(p.server, t) && TriageOne(api, p, t, id).server == api.turn(p.calls, p.server)
  {
    var seen := api.turn(p.calls, p.server);
    var r := Read(seen, t, id).value;
    AllSent(api, p.calls + 1, seen, Needs(t, id, r));
    SettledNeedsNothing(seen, t, id);
  }

  /** A triage that succeeds without sending anything found every task settled. */
  lemma {:induction false} IdleMeansSettled(api: Api, p: Trace, t: Args, ids: seq<Id>)
    requires Quiet(api) && Triaged(api, p, t, ids).failure.None?
    ensures p.requests <= Triaged(api, p, t, ids).requests
    ensures ids != [] ==> PriorityParses(t.patch)
    ensures Triaged(api, p, t, ids).requests == p.requests ==>
              forall id | id in ids :: id in SettledTasks(p.server, t)
    decreases |ids|
  {
    if ids != [] {
      var next := TriageOne(api, p, t, ids[0]);
      OneStepOn(api, p, t, ids);
      TurnSendsOrSettled(api, p, t, ids[0]);
      IdleMeansSettled(api, next, t, ids[1..]);
      if Triaged(api, p, t, ids).requests == p.requests {
        forall id | id in ids ensures id in SettledTasks(p.server, t) {
          if id != ids[0] {
            assert id in ids[1..] && next.server == p.server.(clock := next.server.clock);
            LaterIsSettled(p.server, next.server.clock, t, id);
          }
        }
      }
    }
  }

  /** The trace of a triage that does nothing. */
  ghost predicate IsIdle(p: Trace, k: nat, s: Server, ids: seq<Id>) {
    p == Trace(s.(clock := p.server.clock), k + |ids|, [], [], [], ids, None)
  }

  /**
   * The same triage again, at any later time, with no other writer: once the first has succeeded, the
   * second sends nothing, changes nothing but what time it is and reports every task untouched, exactly
   * when no request needed at the start of the first had a receipt under its child key.
   */
  lemma TriageFixpointIff(api: Api, k: nat, again: nat, s: Server, t: Args)
    requires Quiet(api) && Answers(api, t)
    requires Triaged(api, Start(k, s), t, DedupTaskIds(t.taskIds)).failure.None?
    ensures var ids := DedupTaskIds(t.taskIds);
            var end := Triaged(api, Start(k, s), t, ids).server;
            IsIdle(Triaged(api, Start(again, end), t, ids), again, end, ids)
            <==> forall id | id in t.taskIds :: id !in AnsweredTasks(s, t)
  {
    var ids := DedupTaskIds(t.taskIds);
    var end := Triaged(api, Start(k, s), t, ids).server;
    assert forall id :: id in ids <==> id in t.taskIds by { DedupTaskIdsListsEach(t.taskIds); }
    TriageSettles(api, k, s, t);
    IdleMeansSettled(api, Start(k, s), t, ids);
    IdleIffSettled(api, again, end, t, ids);
  }

  lemma IdleIffSettled(api: Api, k: nat, s: Server, t: Args, ids: seq<Id>)
    requires Quiet(api) && (ids != [] ==> PriorityParses(t.patch))
    ensures IsIdle(Triaged(api, Start(k, s), t, ids), k, s, ids) <==> forall id | id in ids :: id in SettledTasks(s, t)
  {
    if forall id | id in ids :: id in SettledTasks(s, t) {
      if ids != [] { SettledTriageIsIdle(api, Start(k, s), t, ids); }
      assert [] + ids == ids;
    } else if IsIdle(Triaged(api, Start(k, s), t, ids), k, s, ids) {
      IdleMeansSettled(api, Start(k, s), t, ids);
    }
  }

  /** A child key of the triage's root key, for one of its tasks. */
  ghost predicate IsChildKey(t: Args, k: I.Key) {
    && k.workspace == t.workspace && k.actor == t.actor
    && exists id, purpose | id in t.taskIds && purpose in [UPDATE_EPIC, UPDATE_META, COMPLETE] ::
         ChildKey(t, purpose, id).Some? && I.NormalizeKey(ChildKey(t, purpose, id).value) == Ok(k.idempotencyKey)
  }

  lemma NeedsHaveChildKeys(t: Args, id: Id, r: Reading, q: Request)
    requires id in t.taskIds && q in Needs(t, id, r) && ReceiptKey(t, q).Some?
    ensures IsChildKey(t, ReceiptKey(t, q).value)
  {
    var purpose :| purpose in [UPDATE_EPIC, UPDATE_META, COMPLETE] && q.key == ChildKey(t, purpose, id);
  }

  /** So with a root key never used before, or without one, the second triage is idle. */
  lemma TriageFixpoint(api: Api, k: nat, again: nat, s: Server, t: Args)
    requires Quiet(api) && Answers(api, t) && forall key | key in s.receipts :: !IsChildKey(t, key)
    requires Triaged(api, Start(k, s), t, DedupTaskIds(t.taskIds)).failure.None?
    ensures var ids := DedupTaskIds(t.taskIds);
            var end := Triaged(api, Start(k, s), t, ids).server;
            && (forall id | id in t.taskIds :: id in SettledTasks(end, t))
            && IsIdle(Triaged(api, Start(again, end), t, ids), again, end, ids)
  {
    forall id | id in t.taskIds ensures id !in AnsweredTasks(s, t) {
      if IsAnswered(s, t, id) {
        var q :| q in Needs(t, id, Read(s, t, id).value) && FindsReceipt(s, t, q);
        NeedsHaveChildKeys(t, id, Read(s, t, id).value, q);
      }
    }
    TriageSettles(api, k, s, t);
    TriageFixpointIff(api, k, again, s, t);
  }
}
