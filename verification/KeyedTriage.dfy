/** A keyed triage run again after another writer has undone what it did. */
module KeyedTriage {
  import opened Common
  import opened Normalise
  import opened Tables
  import opened Transclusion
  import opened Triage
  import opened TriageClient
  import opened TriageRuns
  import opened Uuids
  import I = Idempotency
  import SharedText

  /** With a root key of some length the server takes the child keys as they are sent. */
  lemma ChildKeyIsAccepted(t: Args, purpose: string, id: Id)
    requires t.key.Some? && t.key.value != [] && !IsWhitespace(t.key.value[0])
    requires I.IsHeaderText(t.key.value) && I.IsHeaderText(purpose)
    requires |t.key.value| + |purpose| + 38 <= I.MAX_IDEMPOTENCY_KEY_LENGTH
    ensures I.NormalizeKey(ChildKey(t, purpose, id).value) == Ok(ChildKey(t, purpose, id).value)
  {
    var root, uuid := t.key.value, UuidText(id);
    var key := ChildKey(t, purpose, id).value;
    assert key == root + ":" + purpose + ":" + uuid;
    forall c | c in key ensures c == '\t' || 32 <= c as int <= 126 {
      assert c in root || c == ':' || c in purpose || c in uuid;
    }
    assert key[0] == root[0] && key[|key| - 1] == uuid[35];
  }

  /** A child key shows its purpose and its task. */
  lemma ChildKeyInParts(t: Args, purpose: string, id: Id)
    requires t.key.Some?
    ensures var key, root := ChildKey(t, purpose, id).value, |t.key.value|;
            && |key| == root + |purpose| + 38
            && key[root + 1..|key| - 37] == purpose && key[|key| - 36..] == UuidText(id)
  {
    var root, uuid := t.key.value, UuidText(id);
    assert ChildKey(t, purpose, id).value == root + ":" + purpose + ":" + uuid;
  }

  /** Different children of one root key have different keys: neither purpose nor task can be confused. */
  lemma ChildKeysAreDistinct(t: Args, p: string, a: Id, q: string, b: Id)
    requires t.key.Some? && IsUuid(a) && IsUuid(b)
    ensures ChildKey(t, p, a) == ChildKey(t, q, b) <==> p == q && a == b
    ensures UPDATE_EPIC != UPDATE_META && UPDATE_EPIC != COMPLETE && UPDATE_META != COMPLETE
  {
    ChildKeyInParts(t, p, a);
    ChildKeyInParts(t, q, b);
    UuidTextOrder(a, b);
    assert UPDATE_EPIC[14] != UPDATE_META[14] && |COMPLETE| < |UPDATE_EPIC| == |UPDATE_META|;
  }

  // ---------------------------------------------------------------------------------------------
  // One task and two epics
  // ---------------------------------------------------------------------------------------------

  type Receipts = map<I.Key, I.ReceiptRow<Request, ()>>

  const OFFER := SharedText.Create(true, "w", "title", "details", 0)

  function OneText(): Grouped {
    Grouped(map[], map[0 := TextRow("w", "title", "details", None, 0)], map[], [], 1)
  }

  function Plain(priority: string): Metadata {
    Metadata([], None, priority)
  }

  /** The server when task 0 belongs to the epic; epics 7 and 8 are there, and no time passes. */
  function At(priority: string, epicId: Option<Id>, receipts: Receipts, nextReceipt: Id): Server {
    Server(0, OneText(), map[0 := Columns(Open, epicId, Plain(priority))], map[7 := "w", 8 := "w"], {("w", priority)},
      [], receipts, nextReceipt)
  }

  /** The triage that sets epic 7, under root key `k`. */
  function SetEpic(): Args {
    Args("w", "a", [0], Some(7), false, Patch([], false, None, false, None), Some("k"))
  }

  /** Someone else's update that sets epic 8. */
  function Undo(priority: string): Request {
    UpdateTask(0, "title", "details", Some(8), Plain(priority), None)
  }

  function Other(): Args {
    Args("w", "b", [], None, false, Patch([], false, None, false, None), None)
  }

  function Update(priority: string): Request {
    UpdateTask(0, "title", "details", Some(7), Plain(priority), ChildKey(SetEpic(), UPDATE_EPIC, 0))
  }

  predicate IsPriority(priority: string) {
    priority != [] && Identifier(priority) == priority
  }

  lemma UpdateSetsEpic(priority: string, epicId: Option<Id>, receipts: Receipts, n: Id, t: Args, q: Request, e: Id)
    requires e == 7 || e == 8
    requires t.workspace == "w" && q == UpdateTask(0, "title", "details", Some(e), Plain(priority), q.key)
    ensures Perform(At(priority, epicId, receipts, n), t, q) == Ok(At(priority, Some(e), receipts, n))
    ensures Payload(q) == q.(key := None)
  {
    var s := At(priority, epicId, receipts, n);
    assert Stored(Plain(priority)) == Plain(priority);
    var updated := Updated(s.text, "w", Task(0), "title", "details", 0).value;
    assert updated.tasks == OneText().tasks && updated == OneText();
    var columns := Columns(Open, Some(e), Plain(priority));
    assert s.columns[0 := columns] == map[0 := columns];
  }

  function KeyOfUpdate(): I.Key {
    I.Key("w", "a", "update_task", ChildKey(SetEpic(), UPDATE_EPIC, 0).value)
  }

  /** The receipt that the first triage leaves. */
  function ReceiptOfUpdate(priority: string): Receipts {
    map[KeyOfUpdate() := I.CompletedRow(KeyOfUpdate(), 0, Payload(Update(priority)), (), 0)]
  }

  lemma UpdateIsKeyed(s: Server, priority: string)
    ensures I.KeyOf(CommandOf(s, SetEpic(), Update(priority))) == Ok(Some(KeyOfUpdate()))
  {
    ChildKeyIsAccepted(SetEpic(), UPDATE_EPIC, 0);
  }

  /** The first time the update is carried out. */
  lemma FirstUpdate(priority: string)
    ensures Handle(At(priority, None, map[], 0), SetEpic(), Update(priority))
         == Ok(At(priority, Some(7), ReceiptOfUpdate(priority), 1))
  {
    var s, t, q := At(priority, None, map[], 0), SetEpic(), Update(priority);
    UpdateSetsEpic(priority, None, map[], 0, t, q, 7);
    UpdateIsKeyed(s, priority);
    assert BodyOf(t, q)(s) == Ok((At(priority, Some(7), map[], 0), ()));
  }

  /** The second time it is answered from the receipt and changes nothing at all. */
  lemma SecondUpdate(priority: string)
    ensures var s := At(priority, Some(8), ReceiptOfUpdate(priority), 1);
            Handle(s, SetEpic(), Update(priority)) == Ok(s)
  {
    var s := At(priority, Some(8), ReceiptOfUpdate(priority), 1);
    UpdateIsKeyed(s, priority);
    var row := s.receipts[KeyOfUpdate()];
    assert s.receipts[KeyOfUpdate() := row.(lastSeenAt := 0)] == s.receipts;
  }

  lemma UndoSetsOtherEpic(priority: string, receipts: Receipts, n: Id)
    ensures Handle(At(priority, Some(7), receipts, n), Other(), Undo(priority))
         == Ok(At(priority, Some(8), receipts, n))
  {
    UpdateSetsEpic(priority, Some(7), receipts, n, Other(), Undo(priority), 8);
  }

  /** What a triage does to the task while it is in no epic or the wrong one. */
  lemma TriageSendsUpdate(api: Api, priority: string, epicId: Option<Id>, receipts: Receipts, n: Id, end: Server)
    requires IsPriority(priority) && epicId != Some(7)
    requires Answers(api, SetEpic()) && forall k, s :: api.turn(k, s) == s
    requires Handle(At(priority, epicId, receipts, n), SetEpic(), Update(priority)) == Ok(end)
    ensures Triaged(api, Start(0, At(priority, epicId, receipts, n)), SetEpic(), DedupTaskIds([0]))
         == Trace(end, 2, [Update(priority)], [0], [], [], None)
  {
    var s, t, q := At(priority, epicId, receipts, n), SetEpic(), Update(priority);
    var record := FetchTask(s, 0).value;
    assert record.metadata == Plain(priority);
    assert Wanted(t, 0, record, record.metadata) == [q];
    assert Read(s, t, 0) == Ok(Reading(s, record, record.metadata));
    assert [q][1..] == [] && [] + [q] == [q] && [] + [0 as Id] == [0];
    assert Served(api, 1, s, [q]) == Exchange(end, [q], None);
    assert DedupTaskIds([0]) == [0];
    TriagedOneMore(api, Start(0, s), t, [0], 0);
    assert [0 as Id][1..] == [] && [0 as Id][0..] == [0];
  }

  /**
   * A triage with a key sets the epic of a task; someone else sets another epic; the same triage with the
   * same key succeeds, reports the task updated and changes nothing, and so does every further one.
   */
  lemma KeyedTriageIsNotRepeated() returns (api: Api, s: Server, t: Args, other: Args, undo: Request)
    ensures Quiet(api) && Answers(api, t) && s.text == SharedText.Run(SharedText.EMPTY_GROUPED, [OFFER])
    ensures var ids := DedupTaskIds(t.taskIds);
            var first := Triaged(api, Start(0, s), t, ids);
            && first.failure == None && first.updated == [0] && 0 in SettledTasks(first.server, t)
            && Handle(first.server, other, undo).Ok?
            && var undone := Handle(first.server, other, undo).value;
            var second := Triaged(api, Start(0, undone), t, ids);
            && 0 !in SettledTasks(undone, t)
            && second.failure == None && second.updated == [0] && second.server == undone
            && second == Triaged(api, Start(0, second.server), t, ids)
  {
    var priority := ['l', 'o', 'w'];
    LowerWordIsIdentifier(priority);
    t, other, undo := SetEpic(), Other(), Undo(priority);
    ghost var args := t;
    s := At(priority, None, map[], 0);
    api := Api((k: nat, seen: Server) => seen, (seen, q) => Handle(seen, args, q));
    OfferLeavesOneText();
    FirstUpdate(priority);
    SecondUpdate(priority);
    UndoSetsOtherEpic(priority, ReceiptOfUpdate(priority), 1);
    TriageSendsUpdate(api, priority, None, map[], 0, At(priority, Some(7), ReceiptOfUpdate(priority), 1));
    TriageSendsUpdate(api, priority, Some(8), ReceiptOfUpdate(priority), 1,
      At(priority, Some(8), ReceiptOfUpdate(priority), 1));
    SettledInEpic(priority, Some(7), ReceiptOfUpdate(priority), 1);
    SettledInEpic(priority, Some(8), ReceiptOfUpdate(priority), 1);
  }

  lemma SettledInEpic(priority: string, epicId: Option<Id>, receipts: Receipts, n: Id)
    requires IsPriority(priority)
    ensures 0 in SettledTasks(At(priority, epicId, receipts, n), SetEpic()) <==> epicId == Some(7)
  {
  }

  lemma OfferLeavesOneText()
    ensures SharedText.Run(SharedText.EMPTY_GROUPED, [OFFER]) == OneText()
  {
    assert [OFFER] == [OFFER] + [];
    SharedText.RunOneMore(SharedText.EMPTY_GROUPED, OFFER, OneText(), []);
  }
}
