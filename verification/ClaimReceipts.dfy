/** `claim_next` with an idempotency key, over the claim tables. */
module ClaimReceipts {
  import opened Common
  import opened Tables
  import opened Listing
  import opened Claims
  import opened ClaimStore
  import I = Idempotency

  /** Everything a keyed `claim_next` asks for; its key and payload are those of the request. */
  datatype Wish = Wish(settings: Settings, workspace: string, actor: string, lease: Option<int>, filters: Filters)

  type Ledgered<!P> = I.State<Board, P, Option<ClaimRow>>

  /** The transaction that tries one candidate. */
  function TryClaim(w: Wish, id: Id, now: Time): I.Body<Board, Option<ClaimRow>> {
    board =>
      match PersistTaskClaim(board, w.settings, w.workspace, w.actor, id, w.lease, false, now)
      case Ok((next, row)) => Ok((next, Some(row)))
      case Err(e) => Err(e)
  }

  function Tries(w: Wish, candidates: seq<Id>, now: Time): seq<I.Body<Board, Option<ClaimRow>>> {
    seq(|candidates|, i requires 0 <= i < |candidates| => TryClaim(w, candidates[i], now))
  }

  /** One call over candidates listed when it starts. */
  function Call<P(==)>(s: Ledgered<P>, r: I.Request<P>, w: Wish, candidates: seq<Id>): (Ledgered<P>,
      I.Outcome<Option<ClaimRow>>) {
    I.ClaimNext(s, r, Tries(w, candidates, r.now), None)
  }

  ghost predicate ListsReady(b: Board, w: Wish, candidates: seq<Id>) {
    && w.filters == ReadyFilters(w.filters.epicId, w.filters.wanted, w.filters.owner, w.filters.priority)
    && IsListing(b.catalog, w.workspace, w.filters, Some(25), candidates)
  }

  /** Claiming the only ready task leaves no task ready. */
  lemma NothingElseIsReady(b: Board, w: Wish, id: Id, now: Time, next: Board, row: ClaimRow)
    requires ListsReady(b, w, [id])
    requires PersistTaskClaim(b, w.settings, w.workspace, w.actor, id, w.lease, false, now) == Ok((next, row))
    ensures forall other :: !Matches(next.catalog, w.workspace, w.filters, other)
    ensures forall candidates :: ListsReady(next, w, candidates) <==> candidates == []
  {
    assert id in [id];
    forall other ensures !Matches(next.catalog, w.workspace, w.filters, other) {
      if Matches(next.catalog, w.workspace, w.filters, other) { StillReadyWasReady(b, w, id, now, next, row, other); }
    }
    forall candidates ensures ListsReady(next, w, candidates) <==> candidates == [] {
      if candidates != [] { assert candidates[0] in candidates; }
    }
  }

  lemma StillReadyWasReady(b: Board, w: Wish, id: Id, now: Time, next: Board, row: ClaimRow, other: Id)
    requires w.filters.readyOnly && Matches(b.catalog, w.workspace, w.filters, id)
    requires PersistTaskClaim(b, w.settings, w.workspace, w.actor, id, w.lease, false, now) == Ok((next, row))
    requires Matches(next.catalog, w.workspace, w.filters, other)
    ensures other != id && Matches(b.catalog, w.workspace, w.filters, other)
  {
    forall e | e in b.catalog.dependencies ensures !Blocks(b.catalog, e, other) {
      assert e in next.catalog.dependencies && !Blocks(next.catalog, e, other);
    }
  }

  /**
   * A keyed call that claims the only ready task stores its answer under its key, yet a retry at any later
   * time finds no candidate and is answered with nothing, without a receipt.
   */
  lemma ClaimNextRetryLosesItsAnswer<P>(s: Ledgered<P>, r: I.Request<P>, w: Wish, id: Id, k: I.Key)
    requires I.KeyOf(r) == Ok(Some(k)) && k !in s.receipts
    requires ListsReady(s.world, w, [id]) && Sound(s.world, r.now)
    requires CalculateClaimExpiry(r.now, NormalizedLeaseSeconds(w.lease, w.settings), w.settings).Some?
    ensures var (after, first) := Call(s, r, w, [id]);
            && first.Executed? && first.envelope.data.Some? && first.envelope.data.value.taskId == id
            && k in after.receipts && after.receipts[k].response == Some(first.envelope)
            && forall later: Time, candidates ::
                 && (ListsReady(after.world, w, candidates) <==> candidates == [])
                 && Call(after, r.(now := later), w, []) == (after, I.Executed(I.Envelope(None, None)))
  {
    assert id in [id] && Matches(s.world.catalog, w.workspace, w.filters, id);
    if HasActiveClaim(s.world, id, r.now) { ActiveIsClaimedNow(s.world, r.now, id); }
    ClaimIgnoresStatus(s.world, w.settings, w.workspace, w.actor, id, w.lease, false, r.now);
    var (next, row) := PersistTaskClaim(s.world, w.settings, w.workspace, w.actor, id, w.lease, false, r.now).value;
    assert Tries(w, [id], r.now)[0](s.world) == Ok((next, Some(row)));
    NothingElseIsReady(s.world, w, id, r.now, next, row);
    var (after, first) := Call(s, r, w, [id]);
    assert after.world == next;
    forall later: Time ensures Call(after, r.(now := later), w, []) == (after, I.Executed(I.Envelope(None, None))) {
    }
  }

  lemma OfferIsListed(steps: seq<Timed>, board: Board)
    requires steps == [OFFER] + [] && board == Board(OneTask(OFFERED), [], [])
    ensures Run(EMPTY_BOARD, SETTINGS, 0, steps) == (board, 0) && Sound(board, 0)
    ensures IsListing(board.catalog, "w", ReadyFilters(None, None, None, None), Some(25), [1])
  {
    RunOneMore(EMPTY_BOARD, SETTINGS, 0, OFFER, [], board);
    assert Sound(EMPTY_BOARD, 0);
    RunKeepsSound(EMPTY_BOARD, SETTINGS, 0, steps);
    assert forall id :: Matches(board.catalog, "w", ReadyFilters(None, None, None, None), id) <==> id == 1;
  }

  /** It happens on a board that a run reaches: one task is offered, and the first call lists it. */
  lemma OnlyTaskIsOffered() returns (steps: seq<Timed>, r: I.Request<nat>, w: Wish, k: I.Key)
    ensures var (board, now) := Run(EMPTY_BOARD, w.settings, 0, steps);
            && now == r.now && Sound(board, now) && ListsReady(board, w, [1])
    ensures I.KeyOf(r) == Ok(Some(k))
    ensures CalculateClaimExpiry(r.now, NormalizedLeaseSeconds(w.lease, w.settings), w.settings).Some?
    ensures var s := I.State(Run(EMPTY_BOARD, w.settings, 0, steps).0, map[], 0);
            var (after, first) := Call(s, r, w, [1]);
            && first.Executed? && first.envelope.data.Some? && first.envelope.data.value.taskId == 1
            && ListsReady(after.world, w, []) && Call(after, r, w, []).1 == I.Executed(I.Envelope(None, None))
  {
    steps := [OFFER] + [];
    var filters := ReadyFilters(None, None, None, None);
    w := Wish(SETTINGS, "w", "a", None, filters);
    r := I.Request("w", "a", "claim_next_task", Some("k"), 0, 0);
    k := I.Key("w", "a", "claim_next_task", "k");
    var board := Board(OneTask(OFFERED), [], []);
    OfferIsListed(steps, board);
    ClaimNextRetryLosesItsAnswer(I.State(board, map[], 0), r, w, 1, k);
    assert r.(now := r.now) == r;
  }
}
