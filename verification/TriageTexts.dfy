/** What a triage does to shared text. */
module TriageTexts {
  import opened Common
  import opened Sorting
  import opened Tables
  import opened Transclusion
  import opened Triage
  import opened TriageClient
  import SharedText

  /** Every note and task keeps its text. */
  ghost predicate KeepsTexts(g: Grouped, next: Grouped) {
    forall r :: g.Has(r) == next.Has(r) && (g.Has(r) ==> SharedText.SameText(g.Row(r), next.Row(r)))
  }

  lemma KeepsTextsTransitive(a: Grouped, b: Grouped, c: Grouped)
    requires KeepsTexts(a, b) && KeepsTexts(b, c)
    ensures KeepsTexts(a, c)
  {
  }

  predicate SendsCurrentText(g: Grouped, q: Request) {
    q.UpdateTask? && q.id in g.tasks ==> q.title == g.tasks[q.id].title && q.details == g.tasks[q.id].content
  }

  /**
   * What an update that is carried out does to text: everything joined to the task gets the text that was
   * sent, so it keeps its own exactly when what was sent is what the server holds; everything else is
   * untouched.
   */
  lemma UpdateKeepsTextIffCurrent(s: Server, t: Args, q: Request, r: EntityRef)
    requires SharedText.Sound(s.text) && q.UpdateTask? && Perform(s, t, q).Ok? && s.text.Has(r)
    ensures var next := Perform(s, t, q).value.text;
            && next.Has(r)
            && (SharedText.Connected(s.text.links, Task(q.id), r) ==>
                  (SharedText.SameText(s.text.Row(r), next.Row(r)) <==> SendsCurrentText(s.text, q)))
            && (!SharedText.Connected(s.text.links, Task(q.id), r) ==> next.Row(r) == s.text.Row(r))
  {
    var g := s.text;
    SharedText.UpdatedRows(g, t.workspace, Task(q.id), q.title, q.details, s.clock, r);
    assert SharedText.SameGroup(g, Task(q.id), r) <==> SharedText.Connected(g.links, Task(q.id), r);
    if SharedText.SameGroup(g, Task(q.id), r) && r != Task(q.id) {
      assert SharedText.CarriesText(g.Row(r), g.groups[g.Row(r).transclusionId.value]);
      assert SharedText.CarriesText(g.Row(Task(q.id)), g.groups[g.Row(r).transclusionId.value]);
    }
  }

  /** The states of the server in which the groups are those that linking calls for. */
  ghost function SoundServers(): iset<Server> {
    iset s: Server | SharedText.Sound(s.text)
  }

  lemma PerformKeepsSound(s: Server, t: Args, q: Request)
    requires s in SoundServers() && Perform(s, t, q).Ok?
    ensures Perform(s, t, q).value in SoundServers()
  {
    if q.CompleteTask? {
      SharedText.TouchKeepsSound(s.text, t.workspace, q.id, s.clock);
    } else {
      SharedText.UpdateKeepsSound(s.text, t.workspace, Task(q.id), q.title, q.details, s.clock);
    }
  }

  lemma HandleKeepsSound(s: Server, t: Args, q: Request)
    requires s in SoundServers() && Handle(s, t, q).Ok?
    ensures Handle(s, t, q).value in SoundServers()
  {
    HandleExecutesOrReplays(s, t, q);
    if !FindsReceipt(s, t, q) { PerformKeepsSound(s, t, q); }
  }

  lemma PerformKeepsTextsIffCurrent(s: Server, t: Args, q: Request)
    requires SharedText.Sound(s.text) && Perform(s, t, q).Ok?
    ensures KeepsTexts(s.text, Perform(s, t, q).value.text) <==> SendsCurrentText(s.text, q)
  {
    var next := Perform(s, t, q).value;
    if q.UpdateTask? {
      UpdateReaches(s, t, q);
      UpdateKeepsTextIffCurrent(s, t, q, Task(q.id));
      forall r ensures s.text.Has(r) == next.text.Has(r)
               ensures s.text.Has(r) && SendsCurrentText(s.text, q) ==>
                       SharedText.SameText(s.text.Row(r), next.text.Row(r)) {
        SharedText.UpdatedRows(s.text, t.workspace, Task(q.id), q.title, q.details, s.clock, r);
        if s.text.Has(r) { UpdateKeepsTextIffCurrent(s, t, q, r); }
      }
    }
  }

  lemma UpdateReaches(s: Server, t: Args, q: Request)
    requires q.UpdateTask? && Perform(s, t, q).Ok?
    ensures s.text.Has(Task(q.id)) && SharedText.Connected(s.text.links, Task(q.id), Task(q.id))
  {
    SharedText.ConnectedToItself(s.text.links, Task(q.id));
  }

  /**
   * A request leaves every text alone exactly when it is no update, is answered from a receipt, or sends the
   * text that is stored.
   */
  lemma HandleKeepsTextsIffCurrent(s: Server, t: Args, q: Request)
    requires SharedText.Sound(s.text) && Handle(s, t, q).Ok?
    ensures KeepsTexts(s.text, Handle(s, t, q).value.text) <==> SendsCurrentText(s.text, q) || FindsReceipt(s, t, q)
  {
    HandleExecutesOrReplays(s, t, q);
    if !FindsReceipt(s, t, q) { PerformKeepsTextsIffCurrent(s, t, q); }
  }

  /** Other writers go through the same handlers, so they keep the group tables sound. */
  ghost predicate OthersKeepSound(api: Api) {
    forall k: nat, s: Server | s in SoundServers() :: api.turn(k, s) in SoundServers()
  }

  /** Each of the requests, when it is carried out, leaves every text as it finds it. */
  ghost predicate WritesKeepTexts(api: Api, k: nat, s: Server, requests: seq<Request>)
    decreases |requests|
  {
    requests == [] ||
    var seen := api.turn(k, s);
    var r := api.handle(seen, requests[0]);
    r.Ok? ==> KeepsTexts(seen.text, r.value.text) && WritesKeepTexts(api, k + 1, r.value, requests[1..])
  }

  ghost predicate RequestsKeepTheTexts(api: Api, k: nat, r: Reading, t: Args, id: Id) {
    WritesKeepTexts(api, k, r.seen, Needs(t, id, r))
  }

  /**
   * If an update is sent and carried out, and not answered from a receipt, the task's text at that moment is
   * the text that was read.
   */
  ghost predicate UpdateFindsWhatWasRead(api: Api, k: nat, r: Reading, t: Args, id: Id) {
    NeedsUpdate(t, r.record, r.next) ==>
      var at, q := api.turn(k, r.seen), WantedUpdate(t, id, r.record, r.next)[0];
      api.handle(at, q).Ok? && !FindsReceipt(at, t, q) && id in at.text.tasks ==>
        at.text.tasks[id].title == r.record.title && at.text.tasks[id].content == r.record.details
  }

  lemma CompletionKeepsTexts(api: Api, k: nat, s: Server, t: Args, id: Id, record: Record)
    requires Answers(api, t) && OthersKeepSound(api) && s in SoundServers()
    ensures WritesKeepTexts(api, k, s, WantedCompletion(t, id, record))
  {
    if NeedsCompletion(t, record) {
      var seen, q := api.turn(k, s), WantedCompletion(t, id, record)[0];
      if Handle(seen, t, q).Ok? { HandleKeepsTextsIffCurrent(seen, t, q); }
      assert WantedCompletion(t, id, record)[1..] == [];
    }
  }

  lemma RequestsKeepTextsIff(api: Api, k: nat, r: Reading, t: Args, id: Id)
    requires Answers(api, t) && OthersKeepSound(api) && r.seen in SoundServers()
    ensures RequestsKeepTheTexts(api, k, r, t, id) == UpdateFindsWhatWasRead(api, k, r, t, id)
  {
    var Reading(s, record, next) := r;
    var wanted := Wanted(t, id, record, next);
    if NeedsUpdate(t, record, next) {
      var at := api.turn(k, s);
      var updated := Handle(at, t, wanted[0]);
      assert wanted[1..] == WantedCompletion(t, id, record);
      if updated.Ok? {
        HandleKeepsTextsIffCurrent(at, t, wanted[0]);
        HandleKeepsSound(at, t, wanted[0]);
        CompletionKeepsTexts(api, k + 1, updated.value, t, id, record);
      }
    } else {
      assert wanted == WantedCompletion(t, id, record);
      CompletionKeepsTexts(api, k, s, t, id, record);
    }
  }

  /** What one task's turn reads. */
  function TurnReads(api: Api, p: Trace, t: Args, id: Id): Result<Reading, Error> {
    Read(api.turn(p.calls, p.server), t, id)
  }

  /** After the read of a turn, whatever triage writes leaves every text as the other writers left it. */
  ghost predicate TurnKeepsTexts(api: Api, k: nat, read: Result<Reading, Error>, t: Args, id: Id) {
    read.Ok? ==> RequestsKeepTheTexts(api, k, read.value, t, id)
  }

  /** After the read of a turn no update is sent, or the update finds the text that was read. */
  ghost predicate TurnWritesWhatItRead(api: Api, k: nat, read: Result<Reading, Error>, t: Args, id: Id) {
    read.Ok? ==> UpdateFindsWhatWasRead(api, k, read.value, t, id)
  }

  lemma TurnKeepsTextsIff(api: Api, k: nat, read: Result<Reading, Error>, t: Args, id: Id)
    requires Answers(api, t) && OthersKeepSound(api)
    requires read.Ok? ==> read.value.seen in SoundServers()
    ensures TurnKeepsTexts(api, k, read, t, id) == TurnWritesWhatItRead(api, k, read, t, id)
  {
    if read.Ok? { RequestsKeepTextsIff(api, k, read.value, t, id); }
  }

  lemma {:induction false} ServedKeepsSound(api: Api, k: nat, s: Server, t: Args, requests: seq<Request>)
    requires Answers(api, t) && OthersKeepSound(api) && s in SoundServers()
    ensures Served(api, k, s, requests).server in SoundServers()
    decreases |requests|
  {
    if requests != [] {
      var seen := api.turn(k, s);
      var r := Handle(seen, t, requests[0]);
      if r.Ok? {
        HandleKeepsSound(seen, t, requests[0]);
        ServedKeepsSound(api, k + 1, r.value, t, requests[1..]);
      }
    }
  }

  lemma TurnKeepsSound(api: Api, p: Trace, t: Args, id: Id, seen: Server, read: Result<Reading, Error>)
    requires Answers(api, t) && OthersKeepSound(api) && seen in SoundServers()
    ensures Turned(api, p, t, id, seen, read).server in SoundServers()
  {
    TurnEndsWithExchange(api, p, t, id, seen, read);
    if read.Ok? { ServedKeepsSound(api, p.calls + 1, seen, t, Needs(t, id, read.value)); }
  }

  lemma TurnReadsSound(api: Api, p: Trace, t: Args, id: Id)
    requires OthersKeepSound(api) && p.server in SoundServers()
    ensures TurnReads(api, p, t, id).Ok? ==> TurnReads(api, p, t, id).value.seen in SoundServers()
  {
  }

  lemma OneKeepsSound(api: Api, p: Trace, t: Args, id: Id)
    requires Answers(api, t) && OthersKeepSound(api) && p.server in SoundServers()
    ensures TriageOne(api, p, t, id).server in SoundServers()
  {
    var seen := api.turn(p.calls, p.server);
    TurnKeepsSound(api, p, t, id, seen, Read(seen, t, id));
  }

  /** The turns that leave every text alone: the trace where the turn begins, and its task. */
  ghost function TurnsKeepingTexts(api: Api, t: Args): iset<(Trace, Id)> {
    iset turn: (Trace, Id) |
      TurnKeepsTexts(api, turn.0.calls + 1, TurnReads(api, turn.0, t, turn.1), t, turn.1)
  }

  ghost function TurnsWritingWhatTheyRead(api: Api, t: Args): iset<(Trace, Id)> {
    iset turn: (Trace, Id) |
      TurnWritesWhatItRead(api, turn.0.calls + 1, TurnReads(api, turn.0, t, turn.1), t, turn.1)
  }

  lemma KeepsTextsIffWritesWhatItRead(api: Api, p: Trace, t: Args, id: Id)
    requires Answers(api, t) && OthersKeepSound(api) && p.server in SoundServers()
    ensures (p, id) in TurnsKeepingTexts(api, t) <==> (p, id) in TurnsWritingWhatTheyRead(api, t)
  {
    TurnReadsSound(api, p, t, id);
    TurnKeepsTextsIff(api, p.calls + 1, TurnReads(api, p, t, id), t, id);
  }

  /** Every turn of a triage, up to the one that fails, is among the given ones. */
  ghost predicate EveryTurnIn(api: Api, p: Trace, t: Args, ids: seq<Id>, turns: iset<(Trace, Id)>)
    decreases |ids|
  {
    p.failure.Some? || ids == []
    || ((p, ids[0]) in turns && EveryTurnIn(api, TriageOne(api, p, t, ids[0]), t, ids[1..], turns))
  }

  /**
   * Whatever others write in between, a triage leaves every text as the other writers left it exactly
   * when each of its updates finds the text that its turn has read.
   */
  lemma {:induction false} TriageKeepsTextsIff(api: Api, p: Trace, t: Args, ids: seq<Id>)
    requires Answers(api, t) && OthersKeepSound(api) && p.server in SoundServers()
    ensures EveryTurnIn(api, p, t, ids, TurnsKeepingTexts(api, t))
         == EveryTurnIn(api, p, t, ids, TurnsWritingWhatTheyRead(api, t))
    decreases |ids|
  {
    if ids != [] && p.failure.None? {
      KeepsTextsIffWritesWhatItRead(api, p, t, ids[0]);
      OneKeepsSound(api, p, t, ids[0]);
      TriageKeepsTextsIff(api, TriageOne(api, p, t, ids[0]), t, ids[1..]);
    }
  }

  lemma {:induction false} RequestsKeepTexts(api: Api, k: nat, s: Server, t: Args, requests: seq<Request>)
    requires Quiet(api) && Answers(api, t) && SharedText.Sound(s.text)
    requires forall q | q in requests :: SendsCurrentText(s.text, q)
    ensures var end := Served(api, k, s, requests).server; SharedText.Sound(end.text) && KeepsTexts(s.text, end.text)
    decreases |requests|
  {
    if requests != [] {
      var seen := api.turn(k, s);
      assert seen.text == s.text;
      var r := Handle(seen, t, requests[0]);
      if r.Ok? {
        HandleKeepsTextsIffCurrent(seen, t, requests[0]);
        HandleKeepsSound(seen, t, requests[0]);
        forall q | q in requests[1..] ensures SendsCurrentText(r.value.text, q) {
          assert q in requests;
          if s.text.Has(Task(q.id)) {
            assert SharedText.SameText(s.text.Row(Task(q.id)), r.value.text.Row(Task(q.id)));
          }
          assert r.value.text.Has(Task(q.id)) == s.text.Has(Task(q.id));
        }
        RequestsKeepTexts(api, k + 1, r.value, t, requests[1..]);
      }
    }
  }

  lemma TurnAloneKeepsTexts(api: Api, p: Trace, t: Args, id: Id, seen: Server, read: Result<Reading, Error>)
    requires Quiet(api) && Answers(api, t) && SharedText.Sound(seen.text)
    requires read == Read(seen, t, id)
    ensures var end := Turned(api, p, t, id, seen, read).server;
            SharedText.Sound(end.text) && KeepsTexts(seen.text, end.text)
  {
    TurnEndsWithExchange(api, p, t, id, seen, read);
    if read.Ok? { RequestsKeepTexts(api, p.calls + 1, seen, t, Needs(t, id, read.value)); }
  }

  /** With no other writer, a triage keeps the text of every note and task, even when it fails half way. */
  lemma {:induction false} TriageKeepsTexts(api: Api, p: Trace, t: Args, ids: seq<Id>)
    requires Quiet(api) && Answers(api, t) && SharedText.Sound(p.server.text)
    ensures KeepsTexts(p.server.text, Triaged(api, p, t, ids).server.text)
    decreases |ids|
  {
    if ids != [] && p.failure.None? {
      var next := TriageOne(api, p, t, ids[0]);
      var seen := api.turn(p.calls, p.server);
      TurnAloneKeepsTexts(api, p, t, ids[0], seen, Read(seen, t, ids[0]));
      TriageKeepsTexts(api, next, t, ids[1..]);
      KeepsTextsTransitive(p.server.text, next.server.text, Triaged(api, p, t, ids).server.text);
    }
  }

  // ---------------------------------------------------------------------------------------------
  // A rename undone
  // ---------------------------------------------------------------------------------------------

  const OFFER := SharedText.Create(true, "w", "old", "d", 0)
  const NOTE := SharedText.Create(false, "w", "other", "d", 0)
  const LINK := SharedText.Link("w", Task(0), Note(1), 0)
  const RENAME := SharedText.Update("w", Note(1), "new", "d", 1)

  /** A task and a note in group 2, both carrying one text. */
  function Pair(title: string, now: Time): Grouped {
    var row := TextRow("w", title, "d", Some(2), now);
    Grouped(map[1 := row], map[0 := row], map[2 := GroupRow("w", title, "d", now)],
      [LinkEvent(Task(0), Note(1), 2, None)], 3)
  }

  lemma PairIsLinked()
    ensures SharedText.Run(SharedText.EMPTY_GROUPED, [OFFER, NOTE, LINK]) == Pair("old", 0)
  {
    var g0 := SharedText.EMPTY_GROUPED;
    var g1 := g0.(tasks := map[0 := TextRow("w", "old", "d", None, 0)], nextId := 1);
    var g2 := g1.(notes := map[1 := TextRow("w", "other", "d", None, 0)], nextId := 2);
    LinkOfTwo(g2);
    assert [OFFER, NOTE, LINK] == [OFFER] + ([NOTE] + ([LINK] + []));
    SharedText.RunOneMore(g0, OFFER, g1, [NOTE] + ([LINK] + []));
    SharedText.RunOneMore(g1, NOTE, g2, [LINK] + []);
    SharedText.RunOneMore(g2, LINK, Pair("old", 0), []);
  }

  lemma LinkOfTwo(g: Grouped)
    requires g.tasks == map[0 := TextRow("w", "old", "d", None, 0)]
             && g.notes == map[1 := TextRow("w", "other", "d", None, 0)]
    requires g.groups == map[] && g.links == [] && g.nextId == 2
    ensures SharedText.Step(g, LINK) == Ok(Pair("old", 0))
  {
    var next := Linked(g, "w", Task(0), Note(1), 0).value.0;
    var row := TextRow("w", "old", "d", Some(2), 0);
    SameTables(next.tasks, map[0 := row]);
    SameTables(next.notes, map[1 := row]);
    assert next.links == [LinkEvent(Task(0), Note(1), 2, None)];
  }

  /** On the pair, an update through either end reaches both. */
  lemma PairIsUpdated(title: string, before: Time, e: EntityRef, next: string, now: Time)
    requires e == Task(0) || e == Note(1)
    ensures Updated(Pair(title, before), "w", e, next, "d", now) == Ok(Pair(next, now))
  {
    var updated := Updated(Pair(title, before), "w", e, next, "d", now).value;
    SameTables(updated.tasks, Pair(next, now).tasks);
    SameTables(updated.notes, Pair(next, now).notes);
    assert updated.groups == Pair(next, now).groups;
  }

  /**
   * A triage that sets the epic of a linked task. Between its read and its write another writer renames
   * the linked note: the triage puts the old title back, on the note too.
   */
  lemma StaleTriageOverwritesText() returns (api: Api, s: Server, t: Args)
    ensures Answers(api, t)
    ensures s.text == SharedText.Run(SharedText.EMPTY_GROUPED, [OFFER, NOTE, LINK])
    ensures api.turn(0, s) == s && Ok(api.turn(1, s).text) == SharedText.Step(s.text, RENAME)
    ensures var end := Triaged(api, Start(0, s), t, DedupTaskIds(t.taskIds));
            && end.failure == None && end.updated == [0]
            && api.turn(1, s).text.Has(Note(1)) && api.turn(1, s).text.Row(Note(1)).title == "new"
            && end.server.text.Has(Note(1)) && end.server.text.Row(Note(1)).title == "old"
  {
    PairIsLinked();
    PairIsUpdated("old", 0, Note(1), "new", 1);
    PairIsUpdated("new", 1, Task(0), "old", 2);
    var columns := Columns(Open, None, Metadata([], None, "low"));
    s := Server(2, Pair("old", 0), map[0 := columns], map[7 := "w"], {("w", PriorityFromRow("low"))}, [], map[], 0);
    t := Args("w", "a", [0], Some(7), false, Patch([], false, None, false, None), None);
    ghost var args := t;
    api := Api((k: nat, seen: Server) => if k == 1 then seen.(text := Pair("new", 1)) else seen,
               (seen, q) => Handle(seen, args, q));
    EpicIsSet(api, s, t);
    assert DedupTaskIds([0]) == [0];
    TriagedOneMore(api, Start(0, s), t, [0], 0);
    assert [0][1..] == [] && [0][0..] == [0];
  }

  /** The one turn of that triage. */
  lemma EpicIsSet(api: Api, s: Server, t: Args)
    requires Answers(api, t) && api.turn(0, s) == s && api.turn(1, s) == s.(text := Pair("new", 1))
    requires s.text == Pair("old", 0) && s.clock == 2 && s.epics == map[7 := "w"]
    requires s.columns == map[0 := Columns(Open, None, Metadata([], None, "low"))]
    requires s.supported == {("w", PriorityFromRow("low"))}
    requires t == Args("w", "a", [0], Some(7), false, Patch([], false, None, false, None), None)
    ensures var end := TriageOne(api, Start(0, s), t, 0);
            end.failure == None && end.updated == [0] && end.server.text == Pair("old", 2)
  {
    var record := FetchTask(s, 0).value;
    var q := UpdateTask(0, "old", "d", Some(7), record.metadata, None);
    assert Wanted(t, 0, record, record.metadata) == [q];
    PairIsUpdated("new", 1, Task(0), "old", 2);
    var at := api.turn(1, s);
    var r := Handle(at, t, q);
    UnkeyedIsPerformed(at, t, q);
    assert r.Ok? && r.value.text == Pair("old", 2);
    assert [q][1..] == [];
    assert Served(api, 2, r.value, []) == Exchange(r.value, [], None);
    assert Served(api, 1, s, [q]).server == r.value && Served(api, 1, s, [q]).failure == None;
  }
}
