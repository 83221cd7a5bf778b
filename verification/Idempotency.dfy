/** Idempotent commands: a receipt written inside the command's own transaction. */
module Idempotency {
  import opened Common
  import Normalise

  const MAX_IDEMPOTENCY_KEY_LENGTH := 255

  /** The unique key of `command_receipts`. */
  datatype Key = Key(workspace: string, actor: string, kind: string, idempotencyKey: string)

  datatype ReceiptStatus = Pending | Completed

  datatype Receipt = Receipt(commandId: Id, kind: string, idempotencyKey: string, recordedAt: Time, replayed: bool)

  datatype Envelope<+D> = Envelope(data: D, receipt: Option<Receipt>)

  datatype ReceiptRow<+P, +D> = ReceiptRow(
    commandId: Id,
    payload: P,
    response: Option<Envelope<D>>,
    status: ReceiptStatus,
    recordedAt: Time,
    lastSeenAt: Time)

  datatype Request<+P> = Request(workspace: string, actor: string, kind: string, rawKey: Option<string>, payload: P,
    now: Time)

  /** What a handler answers: it ran the command, replayed a stored answer, or failed. */
  datatype Outcome<+D> = Executed(envelope: Envelope<D>) | Replayed(envelope: Envelope<D>) | Refused(error: Error)

  /** What `begin_idempotent_command` tells the handler to do. */
  datatype Execution<+D> = Execute(pending: Option<Key>) | Replay(envelope: Envelope<D>)

  // ---------------------------------------------------------------------------------------------
  // Keys
  // ---------------------------------------------------------------------------------------------

  /** `HeaderValue::to_str`: visible ASCII, spaces and tabs. */
  predicate IsHeaderText(s: string) {
    forall c | c in s :: c == '\t' || 32 <= c as int <= 126
  }

  /** The header text trimmed; empty or over-long keys are refused. For such text a byte is a character. */
  function NormalizeKey(raw: string): Result<string, Error> {
    if !IsHeaderText(raw) then Err(BadRequest)
    else
      var trimmed := Normalise.Trim(raw);
      if trimmed == [] || |trimmed| > MAX_IDEMPOTENCY_KEY_LENGTH then Err(BadRequest) else Ok(trimmed)
  }

  /** Keys that differ only in blanks around them are one key, and a normalised key stays as it is. */
  lemma KeysIgnoreOuterBlanks(before: string, raw: string, after: string)
    requires IsHeaderText(before) && IsHeaderText(after) && Normalise.IsBlank(before) && Normalise.IsBlank(after)
    ensures NormalizeKey(before + raw + after) == NormalizeKey(raw)
    ensures NormalizeKey(raw).Ok? ==> NormalizeKey(NormalizeKey(raw).value) == NormalizeKey(raw)
  {
    Normalise.TrimIgnoresOuterBlanks(before, raw, after);
    var all := before + raw + after;
    assert forall c :: c in all <==> c in before || c in raw || c in after;
    Normalise.TrimTwice(raw);
  }

  /** A header names a key exactly when it is plain text and, without outer blanks, of 1 to 255 characters. */
  lemma KeyIsTheMiddle(raw: string) returns (i: nat, j: nat)
    ensures Normalise.IsMiddle(raw, i, j)
    ensures NormalizeKey(raw).Ok?
       <==> (forall c | c in raw :: c == '\t' || ' ' <= c <= '~') && 1 <= j - i <= 255
    ensures NormalizeKey(raw) == Err(BadRequest) || NormalizeKey(raw) == Ok(raw[i..j])
  {
    i, j := Normalise.TrimIsTheMiddle(raw);
  }

  function KeyOf<P>(r: Request<P>): Result<Option<Key>, Error> {
    match r.rawKey
    case None => Ok(None)
    case Some(raw) =>
      var key := NormalizeKey(raw);
      if key.Err? then Err(key.error) else Ok(Some(Key(r.workspace, r.actor, r.kind, key.value)))
  }

  function ReceiptOf<P, D>(k: Key, row: ReceiptRow<P, D>, replayed: bool): Receipt {
    Receipt(row.commandId, k.kind, k.idempotencyKey, row.recordedAt, replayed)
  }

  // ---------------------------------------------------------------------------------------------
  // One command, as its caller sees it
  // ---------------------------------------------------------------------------------------------

  /** `world` stands for every other table; a command's body maps it to a new world and an answer, or fails. */
  datatype State<W, P, D> = State(world: W, receipts: map<Key, ReceiptRow<P, D>>, nextId: Id)

  type Body<!W, !D> = W -> Result<(W, D), Error>

  function CompletedRow<P, D>(k: Key, commandId: Id, payload: P, data: D, now: Time): ReceiptRow<P, D> {
    var receipt := Receipt(commandId, k.kind, k.idempotencyKey, now, false);
    ReceiptRow(commandId, payload, Some(Envelope(data, Some(receipt))), Completed, now, now)
  }

  function Handle<W, P(==), D>(s: State<W, P, D>, r: Request<P>, body: Body<W, D>): (State<W, P, D>, Outcome<D>) {
    var key := KeyOf(r);
    if key.Err? then (s, Refused(key.error))
    else if key.value.Some? && key.value.value in s.receipts then
      var k := key.value.value;
      var row := s.receipts[k];
      if row.payload != r.payload || row.status != Completed then (s, Refused(Conflict))
      else if row.response.None? then (s, Refused(Internal))
      else
        (s.(receipts := s.receipts[k := row.(lastSeenAt := r.now)]),
         Replayed(Envelope(row.response.value.data, Some(ReceiptOf(k, row, true)))))
    else
      match body(s.world)
      case Err(e) => (s, Refused(e))
      case Ok((world, data)) =>
        match key.value
        case None => (s.(world := world), Executed(Envelope(data, None)))
        case Some(k) =>
          var row := CompletedRow(k, s.nextId, r.payload, data, r.now);
          (State(world, s.receipts[k := row], s.nextId + 1), Executed(row.response.value))
  }

  // ---------------------------------------------------------------------------------------------
  // The tables, updated in place
  // ---------------------------------------------------------------------------------------------

  class Ledger<W, P(==), D> {
    var world: W
    var receipts: map<Key, ReceiptRow<P, D>>
    /** The supply of fresh UUIDs. */
    var nextId: Id

    ghost function Contents(): State<W, P, D>
      reads this
    {
      State(world, receipts, nextId)
    }

    constructor (start: W)
      ensures Contents() == State(start, map[], 0)
    {
      world, receipts, nextId := start, map[], 0;
    }

    /** Inserts a pending receipt, or answers from the one already there. */
    method BeginIdempotentCommand(r: Request<P>) returns (e: Result<Execution<D>, Error>)
      modifies this
      ensures world == old(world)
      ensures var key := KeyOf(r);
              match key
              case Err(error) => e == Err(error)
              case Ok(None) => e == Ok(Execute(None)) && receipts == old(receipts) && nextId == old(nextId)
              case Ok(Some(k)) =>
                if k !in old(receipts) then
                  && e == Ok(Execute(Some(k)))
                  && nextId == old(nextId) + 1
                  && receipts == old(receipts)[k := ReceiptRow(old(nextId), r.payload, None, Pending, r.now, r.now)]
                else
                  var row := old(receipts)[k];
                  if row.payload != r.payload || row.status != Completed then e == Err(Conflict)
                  else if row.response.None? then e == Err(Internal)
                  else
                    && e == Ok(Replay(Envelope(row.response.value.data, Some(ReceiptOf(k, row, true)))))
                    && nextId == old(nextId)
                    && receipts == old(receipts)[k := row.(lastSeenAt := r.now)]
    {
      if r.rawKey.None? { return Ok(Execute(None)); }
      var normalized := NormalizeKey(r.rawKey.value);
      if normalized.Err? { return Err(normalized.error); }
      var k := Key(r.workspace, r.actor, r.kind, normalized.value);
      if k in receipts {
        var row := receipts[k];
        if row.payload != r.payload { return Err(Conflict); }
        receipts := receipts[k := row.(lastSeenAt := r.now)];
        if row.status != Completed { return Err(Conflict); }
        if row.response.None? { return Err(Internal); }
        return Ok(Replay(Envelope(row.response.value.data, Some(ReceiptOf(k, row, true)))));
      }
      receipts := receipts[k := ReceiptRow(nextId, r.payload, None, Pending, r.now, r.now)];
      nextId := nextId + 1;
      e := Ok(Execute(Some(k)));
    }

    /** Stores the answer in the pending receipt and marks it completed. */
    method CompleteIdempotentCommand(pending: Option<Key>, data: D, now: Time) returns (receipt: Option<Receipt>)
      requires pending.Some? ==> pending.value in receipts
      modifies this`receipts
      ensures pending.None? ==> receipt == None && receipts == old(receipts)
      ensures pending.Some? ==>
                var k, row := pending.value, old(receipts)[pending.value];
                && receipt == Some(ReceiptOf(k, row, false))
                && receipts == old(receipts)[k :=
                   row.(response := Some(Envelope(data, receipt)), status := Completed, lastSeenAt := now)]
    {
      if pending.None? { return None; }
      var k := pending.value;
      var row := receipts[k];
      receipt := Some(ReceiptOf(k, row, false));
      receipts := receipts[k :=
        row.(response := Some(Envelope(data, receipt)), status := Completed, lastSeenAt := now)];
    }

    /** A mutating handler: receipt, body and completed receipt commit together or not at all. */
    method HandleCommand(r: Request<P>, body: Body<W, D>) returns (o: Outcome<D>)
      modifies this
      ensures (Contents(), o) == Handle(old(Contents()), r, body)
    {
      var savedReceipts, savedNextId := receipts, nextId;
      var execution := BeginIdempotentCommand(r);
      if execution.Err? {
        receipts, nextId := savedReceipts, savedNextId;
        return Refused(execution.error);
      }
      if execution.value.Replay? { return Replayed(execution.value.envelope); }
      var effect := body(world);
      if effect.Err? {
        receipts, nextId := savedReceipts, savedNextId;
        return Refused(effect.error);
      }
      world := effect.value.0;
      var receipt := CompleteIdempotentCommand(execution.value.pending, effect.value.1, r.now);
      o := Executed(Envelope(effect.value.1, receipt));
      if execution.value.pending.Some? {
        ghost var k := execution.value.pending.value;
        assert receipts == savedReceipts[k := CompletedRow(k, savedNextId, r.payload, effect.value.1, r.now)];
      }
    }
  }

  // ---------------------------------------------------------------------------------------------
  // Whole runs
  // ---------------------------------------------------------------------------------------------

  datatype Call<!W, !P, !D> = Call(request: Request<P>, body: Body<W, D>)

  /** The state before the n-th call. */
  function StateAt<W, P(==), D>(s: State<W, P, D>, calls: seq<Call<W, P, D>>, n: nat): State<W, P, D>
    requires n <= |calls|
  {
    if n == 0 then s else Handle(StateAt(s, calls, n - 1), calls[n - 1].request, calls[n - 1].body).0
  }

  function OutcomeAt<W, P(==), D>(s: State<W, P, D>, calls: seq<Call<W, P, D>>, n: nat): Outcome<D>
    requires n < |calls|
  {
    Handle(StateAt(s, calls, n), calls[n].request, calls[n].body).1
  }

  /** Two commands share a key exactly when workspace, actor, kind and the header without outer blanks agree. */
  lemma KeysAreEqualIff<P>(a: Request<P>, b: Request<P>)
    requires KeyOf(a).Ok? && KeyOf(b).Ok? && KeyOf(a).value.Some? && KeyOf(b).value.Some?
    ensures KeyOf(a) == KeyOf(b)
       <==> && a.workspace == b.workspace && a.actor == b.actor && a.kind == b.kind
            && Normalise.Trim(a.rawKey.value) == Normalise.Trim(b.rawKey.value)
  {
  }

  /** Without a receipt under its key a command runs: its effect, its answer and its new receipt all stand, or none. */
  lemma FirstCallRuns<W, P, D>(s: State<W, P, D>, r: Request<P>, body: Body<W, D>)
    requires KeyOf(r).Ok? && (KeyOf(r).value.Some? ==> KeyOf(r).value.value !in s.receipts)
    ensures var (after, outcome) := Handle(s, r, body);
            match body(s.world)
            case Err(e) => outcome == Refused(e) && after == s
            case Ok((world, data)) =>
              && after.world == world && outcome.Executed? && outcome.envelope.data == data
              && if r.rawKey.None? then outcome.envelope.receipt == None && after.receipts == s.receipts
                 else
                   var k := KeyOf(r).value.value;
                   && outcome.envelope.receipt
                      == Some(Receipt(s.nextId, r.kind, Normalise.Trim(r.rawKey.value), r.now, false))
                   && k in after.receipts && after.receipts - {k} == s.receipts
                   && after.receipts[k].payload == r.payload && after.receipts[k].lastSeenAt == r.now
  {
  }

  /** Receipts have command ids of their own, and none that is still to be given out. */
  ghost predicate Numbered<W, P, D>(s: State<W, P, D>) {
    && (forall k | k in s.receipts :: s.receipts[k].commandId < s.nextId)
    && (forall j, k | j in s.receipts && k in s.receipts && j != k ::
          s.receipts[j].commandId != s.receipts[k].commandId)
  }

  lemma {:induction false} CommandIdsAreDistinct<W, P, D>(s: State<W, P, D>, calls: seq<Call<W, P, D>>, n: nat)
    requires Numbered(s) && n <= |calls|
    ensures Numbered(StateAt(s, calls, n))
    decreases n
  {
    if n > 0 {
      CommandIdsAreDistinct(s, calls, n - 1);
      OneCallKeepsNumbered(StateAt(s, calls, n - 1), calls[n - 1]);
    }
  }

  lemma OneCallKeepsNumbered<W, P, D>(s: State<W, P, D>, call: Call<W, P, D>)
    requires Numbered(s)
    ensures Numbered(Handle(s, call.request, call.body).0)
  {
  }

  /** Every receipt that a transaction has committed carries its answer. */
  ghost predicate AllCompleted<W, P, D>(s: State<W, P, D>) {
    forall k | k in s.receipts ::
      var row := s.receipts[k];
      row.status == Completed && row.response.Some? && row.response.value.receipt == Some(ReceiptOf(k, row, false))
  }

  lemma {:induction false} ReceiptsAreCompleted<W, P, D>(s: State<W, P, D>, calls: seq<Call<W, P, D>>, n: nat)
    requires AllCompleted(s) && n <= |calls|
    ensures AllCompleted(StateAt(s, calls, n))
    decreases n
  {
    if n > 0 {
      ReceiptsAreCompleted(s, calls, n - 1);
      OneCallKeepsCompleted(StateAt(s, calls, n - 1), calls[n - 1]);
    }
  }

  lemma OneCallKeepsCompleted<W, P, D>(s: State<W, P, D>, call: Call<W, P, D>)
    requires AllCompleted(s)
    ensures AllCompleted(Handle(s, call.request, call.body).0)
  {
  }

  /** The in-progress and missing-response branches are never taken: a known key conflicts only over its payload. */
  lemma KnownKeyConflictsOnlyOverPayload<W, P, D>(s: State<W, P, D>, calls: seq<Call<W, P, D>>, n: nat, k: Key)
    requires AllCompleted(s) && n < |calls|
    requires KeyOf(calls[n].request) == Ok(Some(k)) && k in StateAt(s, calls, n).receipts
    ensures OutcomeAt(s, calls, n) != Refused(Internal)
    ensures OutcomeAt(s, calls, n) == Refused(Conflict)
            <==> StateAt(s, calls, n).receipts[k].payload != calls[n].request.payload
  {
    ReceiptsAreCompleted(s, calls, n);
  }

  /** A receipt, once there, keeps everything but the time it was last seen. */
  lemma OneCallKeepsReceipt<W, P, D>(s: State<W, P, D>, call: Call<W, P, D>, k: Key)
    requires k in s.receipts
    ensures var after := Handle(s, call.request, call.body).0;
            k in after.receipts && after.receipts[k] == s.receipts[k].(lastSeenAt := after.receipts[k].lastSeenAt)
  {
  }

  /** The one receipt that a call may add, or be answered from, is for its own key and payload. */
  lemma OneCallAddsItsReceipt<W, P, D>(s: State<W, P, D>, r: Request<P>, body: Body<W, D>)
    ensures var after := Handle(s, r, body).0.receipts;
            && (forall k | k in s.receipts :: k in after && after[k].payload == s.receipts[k].payload)
            && (forall k | k in after && k !in s.receipts :: KeyOf(r) == Ok(Some(k)) && after[k].payload == r.payload)
    ensures forall k | KeyOf(r) == Ok(Some(k)) && k in s.receipts && !Handle(s, r, body).1.Refused? ::
              s.receipts[k].payload == r.payload
  {
  }

  lemma {:induction false} ReceiptsPersist<W, P, D>(s: State<W, P, D>, calls: seq<Call<W, P, D>>, m: nat, n: nat,
      k: Key)
    requires m <= n <= |calls| && k in StateAt(s, calls, m).receipts
    ensures k in StateAt(s, calls, n).receipts
    ensures var now := StateAt(s, calls, n).receipts[k].lastSeenAt;
            StateAt(s, calls, n).receipts[k] == StateAt(s, calls, m).receipts[k].(lastSeenAt := now)
    decreases n
  {
    if m < n {
      ReceiptsPersist(s, calls, m, n - 1, k);
      OneCallKeepsReceipt(StateAt(s, calls, n - 1), calls[n - 1], k);
    }
  }

  /**
   * Once a keyed command has committed, every later call with its key leaves all other tables alone:
   * an equal payload gets the first answer back, marked as replayed, and only the time it was last
   * seen changes; a different payload is refused and changes nothing.
   */
  lemma ExactlyOnce<W, P, D>(s: State<W, P, D>, calls: seq<Call<W, P, D>>, i: nat, j: nat, k: Key)
    requires AllCompleted(s) && i < j < |calls|
    requires KeyOf(calls[i].request) == Ok(Some(k)) && KeyOf(calls[j].request) == Ok(Some(k))
    requires OutcomeAt(s, calls, i).Executed?
    ensures var before, after := StateAt(s, calls, j), StateAt(s, calls, j + 1);
            var first := OutcomeAt(s, calls, i).envelope;
            && k in before.receipts && first.receipt.Some?
            && if calls[j].request.payload == calls[i].request.payload then
                 && OutcomeAt(s, calls, j)
                    == Replayed(Envelope(first.data, Some(first.receipt.value.(replayed := true))))
                 && after == before.(receipts :=
                    before.receipts[k := before.receipts[k].(lastSeenAt := calls[j].request.now)])
               else
                 OutcomeAt(s, calls, j) == Refused(Conflict) && after == before
  {
    ReceiptsAreCompleted(s, calls, i);
    assert k in StateAt(s, calls, i + 1).receipts;
    ReceiptsPersist(s, calls, i + 1, j, k);
    ReceiptsAreCompleted(s, calls, j);
  }

  /** So each key commits its effects at most once. */
  lemma CommitsAtMostOnce<W, P, D>(s: State<W, P, D>, calls: seq<Call<W, P, D>>, i: nat, j: nat, k: Key)
    requires AllCompleted(s) && i < |calls| && j < |calls|
    requires KeyOf(calls[i].request) == Ok(Some(k)) && KeyOf(calls[j].request) == Ok(Some(k))
    requires OutcomeAt(s, calls, i).Executed? && OutcomeAt(s, calls, j).Executed?
    ensures i == j
  {
    if i < j { ExactlyOnce(s, calls, i, j, k); }
    if j < i { ExactlyOnce(s, calls, j, i, k); }
  }

  /** A call that fails, for whatever reason, leaves no receipt and no effect, so it can be tried again. */
  lemma RefusedLeavesNoTrace<W, P, D>(s: State<W, P, D>, r: Request<P>, body: Body<W, D>)
    ensures Handle(s, r, body).1.Refused? ==> Handle(s, r, body).0 == s
    ensures Handle(s, r, body).1.Replayed? ==> Handle(s, r, body).0.world == s.world
  {
  }

  // ---------------------------------------------------------------------------------------------
  // claim_next consults its receipt only once per candidate
  // ---------------------------------------------------------------------------------------------

  /** `claim_next_task` with a key: one transaction for each candidate, and none when there is no candidate. */
  function ClaimNext<W, P(==), D>(s: State<W, P, D>, r: Request<P>, candidates: seq<Body<W, D>>,
      nothing: D): (State<W, P, D>, Outcome<D>)
    decreases |candidates|
  {
    if candidates == [] then (s, Executed(Envelope(nothing, None)))
    else
      var key := KeyOf(r);
      var known := key.Ok? && key.value.Some? && key.value.value in s.receipts;
      if key.Ok? && !known && candidates[0](s.world) == Err(Conflict) then ClaimNext(s, r, candidates[1..], nothing)
      else Handle(s, r, candidates[0])
  }

  /** With a key not seen before, the first candidate not refused as claimed decides, and without one nothing does. */
  lemma {:induction false} ClaimNextTakesFirstUnclaimed<W, P, D>(s: State<W, P, D>, r: Request<P>,
      candidates: seq<Body<W, D>>, nothing: D, n: nat)
    requires KeyOf(r).Ok? && (KeyOf(r).value.Some? ==> KeyOf(r).value.value !in s.receipts)
    requires n <= |candidates| && forall i | 0 <= i < n :: candidates[i](s.world) == Err(Conflict)
    requires n < |candidates| ==> candidates[n](s.world) != Err(Conflict)
    ensures ClaimNext(s, r, candidates, nothing)
         == if n < |candidates| then Handle(s, r, candidates[n]) else (s, Executed(Envelope(nothing, None)))
    decreases n
  {
    if n > 0 { ClaimNextTakesFirstUnclaimed(s, r, candidates[1..], nothing, n - 1); }
  }

  /** A retry of a committed `claim_next` is replayed exactly when some task is ready at the time of the retry. */
  lemma ClaimNextReplaysOnlyWithCandidates<W, P, D>(s: State<W, P, D>, r: Request<P>, candidates: seq<Body<W, D>>,
      nothing: D, k: Key)
    requires AllCompleted(s) && KeyOf(r) == Ok(Some(k)) && k in s.receipts && s.receipts[k].payload == r.payload
    ensures ClaimNext(s, r, candidates, nothing).1.Replayed? <==> candidates != []
    ensures candidates == [] ==> ClaimNext(s, r, candidates, nothing) == (s, Executed(Envelope(nothing, None)))
    ensures candidates != [] ==>
              ClaimNext(s, r, candidates, nothing).1 ==
              Replayed(Envelope(s.receipts[k].response.value.data, Some(ReceiptOf(k, s.receipts[k], true))))
  {
  }
}
