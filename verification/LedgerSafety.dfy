/**
 What every reachable ledger satisfies, and that each command keeps it.

 The heart is the pairing of reversed events with their reversals. It is stated as one invariant over
 rows, kept by every committed command, and the accounting and correction-graph results rest on it.
 */
module LedgerSafety {
  import opened Common
  import opened Ledger
  import MoneyModel

  // ---- The invariant -----------------------------------------------------------------------

  ghost predicate WellKeyed(rows: Rows) {
    forall k {:trigger rows[k]} :: k in rows ==> rows[k].id == k
  }

  ghost predicate AllChecked(rows: Rows) {
    forall k {:trigger rows[k]} :: k in rows ==> Checks(rows[k])
  }

  ghost predicate OperationsUnique(rows: Rows) {
    forall j, k {:trigger rows[j], rows[k]} :: j in rows && k in rows && rows[j].operationId == rows[k].operationId ==> j == k
  }

  ghost predicate CategoriesKnown(rows: Rows, categories: Categories) {
    forall k {:trigger rows[k]} :: k in rows ==> rows[k].categoryId in categories
  }

  ghost predicate MoneyExact(rows: Rows) {
    forall k {:trigger rows[k]} :: k in rows ==> MoneyModel.StoredExact(rows[k].amount, rows[k].currency)
  }

  /** `r` undoes `t`: same money, opposite direction, and untouched since it was inserted. */
  predicate Undoes(r: Event, t: Event) {
    && t.approval == Approved && t.posting == Reversed && t.reverses.None?
    && r.currency == t.currency && r.amount == t.amount && r.direction != t.direction
    && r.approval == Approved && r.posting == Effective && r.version == 1 && r.archivedAt.None? && r.replacementFor.None?
  }

  ghost predicate LinksPresent(rows: Rows) {
    forall k {:trigger rows[k]} :: k in rows ==>
      && (rows[k].reverses.Some? ==> rows[k].reverses.value in rows)
      && (rows[k].replacementFor.Some? ==> rows[k].replacementFor.value in rows)
  }

  ghost predicate ReversalsSound(rows: Rows) {
    forall j, k {:trigger rows[j], rows[k]} :: j in rows && k in rows && rows[j].reverses == Some(k) ==> Undoes(rows[j], rows[k])
  }

  ghost predicate ReversalsUnique(rows: Rows) {
    forall j, k {:trigger rows[j], rows[k]} ::
      j in rows && k in rows && rows[j].reverses.Some? && rows[j].reverses == rows[k].reverses ==> j == k
  }

  ghost predicate HasReversal(rows: Rows, k: Uuid) {
    exists r {:trigger rows[r]} :: r in rows && rows[r].reverses == Some(k)
  }

  ghost predicate ReversedHasReversal(rows: Rows) {
    forall k {:trigger HasReversal(rows, k)} :: k in rows && rows[k].posting == Reversed ==> HasReversal(rows, k)
  }

  ghost predicate ReplacementsSound(rows: Rows) {
    forall j, k {:trigger rows[j], rows[k]} :: j in rows && k in rows && rows[j].replacementFor == Some(k) ==> rows[k].posting == Reversed
  }

  ghost predicate ReplacementsUnique(rows: Rows) {
    forall j, k {:trigger rows[j], rows[k]} ::
      j in rows && k in rows && rows[j].replacementFor.Some? && rows[j].replacementFor == rows[k].replacementFor ==> j == k
  }

  /** An order in which replacement links always point back. */
  ghost predicate Ranked(rows: Rows, rank: map<Uuid, int>, bound: int) {
    && rank.Keys == rows.Keys
    && (forall k {:trigger rank[k]} :: k in rank ==> rank[k] < bound)
    && (forall j, k {:trigger rank[j], rank[k]} :: j in rank && k in rank && rows[j].replacementFor == Some(k) ==> rank[k] < rank[j])
  }

  ghost predicate Acyclic(rows: Rows) {
    exists rank, bound :: Ranked(rows, rank, bound)
  }

  ghost predicate Links(rows: Rows) {
    && LinksPresent(rows) && ReversalsSound(rows) && ReversalsUnique(rows) && ReversedHasReversal(rows)
    && ReplacementsSound(rows) && ReplacementsUnique(rows) && Acyclic(rows)
  }

  ghost predicate RowsValid(rows: Rows, categories: Categories) {
    WellKeyed(rows) && AllChecked(rows) && OperationsUnique(rows) && CategoriesKnown(rows, categories)
  }

  ghost predicate Valid(l: Ledger) {
    RowsValid(l.events, l.categories) && MoneyExact(l.events) && Links(l.events)
  }

  // ---- Insertions and updates, in general --------------------------------------------------

  lemma WriteKeepsRows(rows: Rows, categories: Categories, e: Event)
    requires RowsValid(rows, categories) && (InsertAccepted(rows, categories, e) || UpdateAccepted(rows, categories, e))
    ensures RowsValid(rows[e.id := e], categories)
  {
  }

  lemma WriteKeepsMoney(rows: Rows, e: Event)
    requires MoneyExact(rows) && MoneyModel.StoredExact(e.amount, e.currency)
    ensures MoneyExact(rows[e.id := e])
  {
  }

  /** `after` is `rows` with one row more. */
  ghost predicate Extends(rows: Rows, after: Rows, id: Uuid) {
    id !in rows && after.Keys == rows.Keys + {id} && forall k {:trigger after[k]} :: k in rows ==> after[k] == rows[k]
  }

  /** A new row that reverses nothing and replaces at most an event that was reversed and not yet replaced. */
  ghost predicate Attachable(rows: Rows, e: Event) {
    && e.reverses.None? && e.posting != Reversed
    && (e.replacementFor.Some? ==>
          && e.replacementFor.value in rows && rows[e.replacementFor.value].posting == Reversed
          && forall k {:trigger rows[k]} :: k in rows ==> rows[k].replacementFor != e.replacementFor)
  }

  lemma InsertKeepsPresence(rows: Rows, after: Rows, id: Uuid)
    requires LinksPresent(rows) && Extends(rows, after, id) && Attachable(rows, after[id])
    ensures LinksPresent(after)
  {
  }

  lemma InsertKeepsReversals(rows: Rows, after: Rows, id: Uuid)
    requires LinksPresent(rows) && ReversalsSound(rows)
    requires Extends(rows, after, id) && Attachable(rows, after[id])
    ensures ReversalsSound(after)
  {
  }

  lemma InsertKeepsReversalsUnique(rows: Rows, after: Rows, id: Uuid)
    requires ReversalsUnique(rows) && Extends(rows, after, id) && Attachable(rows, after[id])
    ensures ReversalsUnique(after)
  {
  }

  lemma InsertKeepsReversed(rows: Rows, after: Rows, id: Uuid)
    requires ReversedHasReversal(rows) && Extends(rows, after, id) && Attachable(rows, after[id])
    ensures ReversedHasReversal(after)
  {
    forall k | k in after && after[k].posting == Reversed ensures HasReversal(after, k) {
      assert HasReversal(rows, k);
      var r :| r in rows && rows[r].reverses == Some(k);
      assert after[r] == rows[r];
    }
  }

  lemma InsertKeepsReplacements(rows: Rows, after: Rows, id: Uuid)
    requires LinksPresent(rows) && ReplacementsSound(rows)
    requires Extends(rows, after, id) && Attachable(rows, after[id])
    ensures ReplacementsSound(after)
  {
  }

  lemma InsertKeepsReplacementsUnique(rows: Rows, after: Rows, id: Uuid)
    requires ReplacementsUnique(rows) && Extends(rows, after, id) && Attachable(rows, after[id])
    ensures ReplacementsUnique(after)
  {
  }

  /** A row that nothing points at can be ranked last. */
  lemma RankLast(rows: Rows, after: Rows, id: Uuid)
    requires LinksPresent(rows) && Acyclic(rows)
    requires id !in rows && after.Keys == rows.Keys + {id} && after[id].replacementFor != Some(id)
    requires forall k {:trigger after[k]} :: k in rows ==> after[k].replacementFor == rows[k].replacementFor
    ensures Acyclic(after)
  {
    var rank, bound :| Ranked(rows, rank, bound);
    var ranked := rank[id := bound];
    forall j, k | j in ranked && k in ranked && after[j].replacementFor == Some(k) ensures ranked[k] < ranked[j] {
      if j != id {
        assert rows[j].replacementFor == Some(k);
        assert ranked[j] == rank[j] && ranked[k] == rank[k];
      } else {
        assert ranked[k] == rank[k];
      }
    }
    assert Ranked(after, ranked, bound + 1);
  }

  /** Inserting a row that can be attached keeps every link in order. */
  lemma InsertKeepsLinks(rows: Rows, after: Rows, id: Uuid)
    requires Links(rows) && Extends(rows, after, id) && Attachable(rows, after[id])
    ensures Links(after)
  {
    InsertKeepsPresence(rows, after, id);
    InsertKeepsReversals(rows, after, id);
    InsertKeepsReversalsUnique(rows, after, id);
    InsertKeepsReversed(rows, after, id);
    InsertKeepsReplacements(rows, after, id);
    InsertKeepsReplacementsUnique(rows, after, id);
    RankLast(rows, after, id);
  }

  /** A change no link can notice. */
  predicate Unnoticed(before: Event, after: Event) {
    && after.reverses == before.reverses && after.replacementFor == before.replacementFor
    && (after.posting == Reversed <==> before.posting == Reversed)
    && (before.posting == Reversed ==>
          after.approval == before.approval && after.amount == before.amount && after.currency == before.currency && after.direction == before.direction)
    && (before.reverses.Some? ==> after == before)
  }

  ghost predicate AllUnnoticed(rows: Rows, after: Rows) {
    after.Keys == rows.Keys && forall k {:trigger after[k]} :: k in rows ==> Unnoticed(rows[k], after[k])
  }

  lemma UnnoticedKeepsReversals(rows: Rows, after: Rows)
    requires ReversalsSound(rows) && ReversalsUnique(rows) && AllUnnoticed(rows, after)
    ensures ReversalsSound(after) && ReversalsUnique(after)
  {
  }

  lemma UnnoticedKeepsReversed(rows: Rows, after: Rows)
    requires ReversedHasReversal(rows) && AllUnnoticed(rows, after)
    ensures ReversedHasReversal(after)
  {
    forall k | k in after && after[k].posting == Reversed ensures HasReversal(after, k) {
      assert HasReversal(rows, k);
      var r :| r in rows && rows[r].reverses == Some(k);
      assert Unnoticed(rows[r], after[r]);
    }
  }

  lemma UnnoticedKeepsReplacements(rows: Rows, after: Rows)
    requires LinksPresent(rows) && ReplacementsSound(rows) && ReplacementsUnique(rows) && AllUnnoticed(rows, after)
    ensures LinksPresent(after) && ReplacementsSound(after) && ReplacementsUnique(after)
  {
  }

  lemma UnnoticedKeepsRank(rows: Rows, after: Rows)
    requires Acyclic(rows) && AllUnnoticed(rows, after)
    ensures Acyclic(after)
  {
    var rank, bound :| Ranked(rows, rank, bound);
    forall j, k | j in rank && k in rank && after[j].replacementFor == Some(k) ensures rank[k] < rank[j] {
      assert Unnoticed(rows[j], after[j]);
    }
    assert Ranked(after, rank, bound);
  }

  lemma UpdateKeepsLinks(rows: Rows, e: Event)
    requires Links(rows) && e.id in rows && Unnoticed(rows[e.id], e)
    ensures Links(rows[e.id := e])
  {
    var after := rows[e.id := e];
    assert AllUnnoticed(rows, after);
    UnnoticedKeepsReversals(rows, after);
    UnnoticedKeepsReversed(rows, after);
    UnnoticedKeepsReplacements(rows, after);
    UnnoticedKeepsRank(rows, after);
  }

  // ---- Create, edit, decide, archive -------------------------------------------------------

  predicate DraftTexts(d: Draft) {
    LengthWithin(d.counterparty, 256) && LengthWithin(d.reference, 128) && LengthWithin(d.notes, 2000)
  }

  /** A draft the services let through: exact money in a supported currency and bounded texts. */
  predicate DraftAccepted(d: Draft) {
    MoneyModel.StoredExact(d.amount, d.currency) && DraftTexts(d)
  }

  predicate ChangesAccepted(c: Changes) {
    && (c.money.Some? ==> MoneyModel.StoredExact(c.money.value.0, c.money.value.1))
    && (c.counterparty.Some? ==> LengthWithin(c.counterparty.value, 256))
    && (c.reference.Some? ==> LengthWithin(c.reference.value, 128))
    && (c.notes.Some? ==> LengthWithin(c.notes.value, 2000))
  }

  ghost predicate NewOperation(rows: Rows, operationId: Uuid) {
    forall k {:trigger rows[k]} :: k in rows ==> rows[k].operationId != operationId
  }

  /** A row that reverses nothing goes in exactly when its two identifiers are new. */
  lemma PlainRowAccepted(rows: Rows, categories: Categories, e: Event)
    requires Checks(e) && e.reverses.None? && ForeignKeys(rows, categories, e)
    ensures InsertAccepted(rows, categories, e) <==> e.id !in rows && NewOperation(rows, e.operationId)
  {
  }

  /** Changing a row in place keeps the unique rules when it keeps its operation and reverses nothing. */
  lemma PlainUpdateAccepted(rows: Rows, categories: Categories, before: Event, e: Event)
    requires WellKeyed(rows) && OperationsUnique(rows) && before.id in rows && rows[before.id] == before
    requires e.id == before.id && e.operationId == before.operationId && e.reverses.None?
    requires Checks(e) && ApprovedFactsKept(before, e) && ForeignKeys(rows, categories, e)
    ensures UpdateAccepted(rows, categories, e)
  {
  }

  /** A row of a valid ledger, with the facts every command about it needs. */
  lemma RowFacts(rows: Rows, categories: Categories, id: Uuid)
    requires RowsValid(rows, categories) && LinksPresent(rows) && id in rows
    ensures rows[id].id == id && Checks(rows[id]) && ForeignKeys(rows, categories, rows[id])
  {
  }

  lemma UpdateKeepsValid(l: Ledger, e: Event)
    requires Valid(l) && UpdateAccepted(l.events, l.categories, e) && Unnoticed(l.events[e.id], e)
    requires MoneyModel.StoredExact(e.amount, e.currency)
    ensures Valid(l.(events := l.events[e.id := e]))
  {
    WriteKeepsRows(l.events, l.categories, e);
    WriteKeepsMoney(l.events, e);
    UpdateKeepsLinks(l.events, e);
  }

  lemma CreateKeepsValid(l: Ledger, ctx: Context, operationId: Uuid, d: Draft, now: Instant, id: Uuid)
    requires Valid(l) && DraftAccepted(d)
    ensures Valid(CreateEvent(l, ctx, operationId, d, now, id).0)
  {
    var e := NewEvent(ctx, operationId, d, now, id);
    if InsertAccepted(l.events, l.categories, e) {
      WriteKeepsRows(l.events, l.categories, e);
      WriteKeepsMoney(l.events, e);
      InsertKeepsLinks(l.events, l.events[id := e], id);
    }
  }

  /** With an accepted draft and a usable category, the row goes in exactly when its ids are new. */
  lemma CreateGoesThrough(l: Ledger, ctx: Context, operationId: Uuid, d: Draft, now: Instant, id: Uuid)
    requires DraftAccepted(d) && CategoryError(l, ctx, d.categoryId, d.kind, d.activity).None?
    ensures CreateEvent(l, ctx, operationId, d, now, id)
            == if id !in l.events && NewOperation(l.events, operationId)
               then (l.(events := l.events[id := NewEvent(ctx, operationId, d, now, id)]), Ok(NewEvent(ctx, operationId, d, now, id)))
               else (l, Err(IntegrityViolation))
  {
  }

  lemma EditIsUnnoticed(before: Event, c: Changes, ctx: Context, now: Instant)
    requires Checks(before) && Editable(before) && ChangesAccepted(c)
    requires MoneyModel.StoredExact(before.amount, before.currency)
    ensures var e := Edited(before, c, ctx, now); Unnoticed(before, e) && MoneyModel.StoredExact(e.amount, e.currency)
  {
  }

  lemma EditWrote(l: Ledger, ctx: Context, eventId: Uuid, expectedVersion: int, c: Changes, now: Instant)
    requires UpdatePendingEvent(l, ctx, eventId, expectedVersion, c, now).1.Ok?
    ensures eventId in l.events && Editable(l.events[eventId])
    ensures var e := Edited(l.events[eventId], c, ctx, now);
            && UpdateAccepted(l.events, l.categories, e)
            && UpdatePendingEvent(l, ctx, eventId, expectedVersion, c, now) == (l.(events := l.events[e.id := e]), Ok(e))
  {
  }

  lemma EditKeepsValid(l: Ledger, ctx: Context, eventId: Uuid, expectedVersion: int, c: Changes, now: Instant)
    requires Valid(l) && ChangesAccepted(c)
    ensures Valid(UpdatePendingEvent(l, ctx, eventId, expectedVersion, c, now).0)
  {
    var (after, r) := UpdatePendingEvent(l, ctx, eventId, expectedVersion, c, now);
    if r.Ok? {
      EditWrote(l, ctx, eventId, expectedVersion, c, now);
      RowFacts(l.events, l.categories, eventId);
      assert MoneyModel.StoredExact(l.events[eventId].amount, l.events[eventId].currency);
      EditIsUnnoticed(l.events[eventId], c, ctx, now);
      UpdateKeepsValid(l, Edited(l.events[eventId], c, ctx, now));
    }
  }

  lemma EditedChecked(before: Event, c: Changes, ctx: Context, now: Instant)
    requires Checks(before) && ChangesAccepted(c) && Editable(before)
    ensures Checks(Edited(before, c, ctx, now))
  {
  }

  /** An edit that passes the repository's checks is never refused by the database. */
  lemma EditGoesThrough(l: Ledger, ctx: Context, eventId: Uuid, expectedVersion: int, c: Changes, now: Instant)
    requires RowsValid(l.events, l.categories) && LinksPresent(l.events) && ChangesAccepted(c)
    ensures UpdatePendingEvent(l, ctx, eventId, expectedVersion, c, now).1 != Err(IntegrityViolation)
  {
    if eventId in l.events && Editable(l.events[eventId]) {
      var before := l.events[eventId];
      var e := Edited(before, c, ctx, now);
      RowFacts(l.events, l.categories, eventId);
      EditedChecked(before, c, ctx, now);
      if e.categoryId in l.categories {
        PlainUpdateAccepted(l.events, l.categories, before, e);
      }
    }
  }

  lemma DecisionIsUnnoticed(before: Event, decision: Decision, reason: Reason, explanation: Option<string>,
                            ctx: Context, now: Instant)
    requires Checks(before) && Editable(before)
    ensures Unnoticed(before, Decided(before, decision, reason, explanation, ctx, now))
  {
  }

  lemma DecisionWrote(l: Ledger, ctx: Context, eventId: Uuid, decision: Decision, reason: Reason,
                      explanation: Option<string>, now: Instant)
    requires DecidePendingEvent(l, ctx, eventId, decision, reason, explanation, now).1.Ok?
    ensures eventId in l.events && Editable(l.events[eventId])
    ensures var e := Decided(l.events[eventId], decision, reason, explanation, ctx, now);
            && UpdateAccepted(l.events, l.categories, e)
            && DecidePendingEvent(l, ctx, eventId, decision, reason, explanation, now) == (l.(events := l.events[e.id := e]), Ok(e))
  {
  }

  lemma DecideKeepsValid(l: Ledger, ctx: Context, eventId: Uuid, decision: Decision, reason: Reason,
                         explanation: Option<string>, now: Instant)
    requires Valid(l)
    ensures Valid(DecidePendingEvent(l, ctx, eventId, decision, reason, explanation, now).0)
  {
    if DecidePendingEvent(l, ctx, eventId, decision, reason, explanation, now).1.Ok? {
      DecisionWrote(l, ctx, eventId, decision, reason, explanation, now);
      RowFacts(l.events, l.categories, eventId);
      assert MoneyModel.StoredExact(l.events[eventId].amount, l.events[eventId].currency);
      DecisionIsUnnoticed(l.events[eventId], decision, reason, explanation, ctx, now);
      UpdateKeepsValid(l, Decided(l.events[eventId], decision, reason, explanation, ctx, now));
    }
  }

  lemma DecisionAccepted(rows: Rows, categories: Categories, before: Event, decision: Decision, reason: Reason,
                         explanation: Option<string>, ctx: Context, now: Instant)
    requires WellKeyed(rows) && OperationsUnique(rows) && before.id in rows && rows[before.id] == before
    requires Checks(before) && ForeignKeys(rows, categories, before) && Editable(before)
    requires (decision == Approve) == explanation.None? && (explanation.Some? ==> |explanation.value| <= 512)
    ensures UpdateAccepted(rows, categories, Decided(before, decision, reason, explanation, ctx, now))
  {
  }

  lemma DecisionWrites(l: Ledger, ctx: Context, eventId: Uuid, decision: Decision, reason: Reason,
                       explanation: Option<string>, now: Instant)
    requires eventId in l.events && Editable(l.events[eventId]) && (decision == Approve) == explanation.None? ==>
               UpdateAccepted(l.events, l.categories, Decided(l.events[eventId], decision, reason, explanation, ctx, now))
    ensures DecidePendingEvent(l, ctx, eventId, decision, reason, explanation, now).1 != Err(IntegrityViolation)
  {
  }

  /** A decision that passes the repository's checks is never refused by the database. */
  lemma DecideGoesThrough(l: Ledger, ctx: Context, eventId: Uuid, decision: Decision, reason: Reason,
                          explanation: Option<string>, now: Instant)
    requires RowsValid(l.events, l.categories) && LinksPresent(l.events)
    requires explanation.Some? ==> |explanation.value| <= 512
    ensures DecidePendingEvent(l, ctx, eventId, decision, reason, explanation, now).1 != Err(IntegrityViolation)
  {
    if eventId in l.events && Editable(l.events[eventId]) && (decision == Approve) == explanation.None? {
      RowFacts(l.events, l.categories, eventId);
      DecisionAccepted(l.events, l.categories, l.events[eventId], decision, reason, explanation, ctx, now);
    }
    DecisionWrites(l, ctx, eventId, decision, reason, explanation, now);
  }

  lemma ArchiveWrote(l: Ledger, ctx: Context, eventId: Uuid, expectedVersion: int, reason: Reason, now: Instant)
    requires WellKeyed(l.events) && LinksPresent(l.events) && ReversalsSound(l.events)
    requires ArchiveEvent(l, ctx, eventId, expectedVersion, reason, now).1.Ok?
    ensures eventId in l.events && l.events[eventId].id == eventId
    ensures l.events[eventId].archivedAt.None? && l.events[eventId].reverses.None?
    ensures var e := Archived(l.events[eventId], reason, ctx, now);
            && UpdateAccepted(l.events, l.categories, e)
            && ArchiveEvent(l, ctx, eventId, expectedVersion, reason, now) == (l.(events := l.events[e.id := e]), Ok(e))
  {
    if l.events[eventId].reverses.Some? {
      ReversalsStayPut(l, l.events[eventId], Archived(l.events[eventId], reason, ctx, now));
    }
  }

  lemma ArchiveKeepsValid(l: Ledger, ctx: Context, eventId: Uuid, expectedVersion: int, reason: Reason, now: Instant)
    requires Valid(l)
    ensures Valid(ArchiveEvent(l, ctx, eventId, expectedVersion, reason, now).0)
  {
    if ArchiveEvent(l, ctx, eventId, expectedVersion, reason, now).1.Ok? {
      ArchiveWrote(l, ctx, eventId, expectedVersion, reason, now);
      assert MoneyModel.StoredExact(l.events[eventId].amount, l.events[eventId].currency);
      UpdateKeepsValid(l, Archived(l.events[eventId], reason, ctx, now));
    }
  }

  /** The guard refuses every update of a reversal: by then its target is no longer effective. */
  lemma ReversalsStayPut(l: Ledger, before: Event, e: Event)
    requires LinksPresent(l.events) && ReversalsSound(l.events)
    requires before.id in l.events && l.events[before.id] == before && e.reverses == before.reverses && before.reverses.Some?
    ensures !GuardAcceptsReversal(l.events, e)
  {
    assert Undoes(before, l.events[before.reverses.value]);
  }

  /**
   The history guard also runs on updates, so it refuses to archive a reversal. Every other row the
   repository is ready to archive goes through.
   */
  lemma ArchiveGoesThrough(l: Ledger, ctx: Context, eventId: Uuid, expectedVersion: int, reason: Reason, now: Instant)
    requires Valid(l) && FinanceValid(l.access, ctx) && ctx.role == Admin && eventId in l.events
    requires l.events[eventId].version == expectedVersion
    requires l.events[eventId].approval != Pending && l.events[eventId].archivedAt.None?
    ensures ArchiveEvent(l, ctx, eventId, expectedVersion, reason, now).1
            == if l.events[eventId].reverses.Some? then Err(IntegrityViolation)
               else Ok(Archived(l.events[eventId], reason, ctx, now))
  {
    var before := l.events[eventId];
    var e := Archived(before, reason, ctx, now);
    RowFacts(l.events, l.categories, eventId);
    if before.reverses.None? {
      assert Checks(e);
      PlainUpdateAccepted(l.events, l.categories, before, e);
    } else {
      ReversalsStayPut(l, before, e);
    }
  }

  // ---- Reversal ----------------------------------------------------------------------------

  /** What a reversal command needs that the repository does not check itself. */
  predicate ArgsAccepted(a: ReversalArgs) {
    a.replacement.Some? ==> DraftAccepted(a.replacement.value)
  }

  /** The ids a reversal brings are all new, and distinct from one another. */
  ghost predicate IdsAreNew(rows: Rows, a: ReversalArgs, supply: Supply) {
    && supply.eventId !in rows && NewOperation(rows, a.operationId)
    && (a.replacement.Some? ==>
          && supply.secondEventId !in rows && supply.secondEventId != supply.eventId
          && NewOperation(rows, a.derivedOperationId) && a.derivedOperationId != a.operationId)
  }

  /** No link names an event that is still effective. */
  lemma NotYetReversed(rows: Rows, x: Uuid)
    requires ReversalsSound(rows) && ReplacementsSound(rows) && x in rows && rows[x].posting == Effective
    ensures forall k {:trigger rows[k]} :: k in rows ==> rows[k].reverses != Some(x) && rows[k].replacementFor != Some(x)
  {
  }

  lemma ReversalChecked(original: Event, ctx: Context, a: ReversalArgs, supply: Supply)
    requires Checks(original) && original.id != supply.eventId
    ensures Checks(PlannedReversal(original, ctx, a, supply).0)
  {
  }

  lemma ReversalRowAccepted(rows: Rows, categories: Categories, original: Event, ctx: Context, a: ReversalArgs,
                            supply: Supply)
    requires RowsValid(rows, categories) && Links(rows) && original.id in rows && rows[original.id] == original && Reversible(original)
    ensures var reversal := PlannedReversal(original, ctx, a, supply).0;
            InsertAccepted(rows, categories, reversal) <==> supply.eventId !in rows && NewOperation(rows, a.operationId)
  {
    RowFacts(rows, categories, original.id);
    if supply.eventId !in rows {
      ReversalChecked(original, ctx, a, supply);
      NotYetReversed(rows, original.id);
    }
  }

  lemma FlipAccepted(rows: Rows, categories: Categories, original: Event, ctx: Context, now: Instant)
    requires WellKeyed(rows) && OperationsUnique(rows) && original.id in rows && rows[original.id] == original
    requires Reversible(original) && Checks(original) && ForeignKeys(rows, categories, original)
    ensures UpdateAccepted(rows, categories, Flipped(original, ctx, now))
  {
  }

  lemma OperationsAfterInsert(rows: Rows, e: Event, operationId: Uuid)
    requires e.id !in rows
    ensures NewOperation(rows[e.id := e], operationId) <==> NewOperation(rows, operationId) && e.operationId != operationId
  {
    var after := rows[e.id := e];
    assert after[e.id] == e;
    assert forall k :: k in rows ==> after[k] == rows[k];
  }

  lemma ReplacementChecked(original: Event, ctx: Context, a: ReversalArgs, supply: Supply)
    requires a.replacement.Some? && ArgsAccepted(a) && supply.secondEventId != original.id
    ensures Checks(PlannedReversal(original, ctx, a, supply).1.value)
  {
  }

  function AfterFirstFlush(rows: Rows, reversal: Event, replacement: Option<Event>): Rows {
    var one := rows[reversal.id := reversal];
    if replacement.None? then one else one[replacement.value.id := replacement.value]
  }

  lemma ReplacementRowAccepted(rows: Rows, categories: Categories, original: Event, ctx: Context, a: ReversalArgs,
                               supply: Supply)
    requires original.id in rows && supply.eventId !in rows
    requires a.replacement.Some? && ArgsAccepted(a) && a.replacement.value.categoryId in categories
    ensures var (reversal, replacement, _) := PlannedReversal(original, ctx, a, supply);
            InsertAccepted(rows[reversal.id := reversal], categories, replacement.value) <==>
            && supply.secondEventId !in rows && supply.secondEventId != supply.eventId
            && NewOperation(rows, a.derivedOperationId) && a.derivedOperationId != a.operationId
  {
    var (reversal, replacement, _) := PlannedReversal(original, ctx, a, supply);
    if supply.secondEventId != original.id {
      ReplacementChecked(original, ctx, a, supply);
      PlainRowAccepted(rows[reversal.id := reversal], categories, replacement.value);
      OperationsAfterInsert(rows, reversal, a.derivedOperationId);
    }
  }

  lemma FirstFlushGoesThrough(rows: Rows, categories: Categories, original: Event, ctx: Context, a: ReversalArgs,
                              supply: Supply)
    requires RowsValid(rows, categories) && Links(rows) && original.id in rows && rows[original.id] == original && Reversible(original)
    requires ArgsAccepted(a) && (a.replacement.Some? ==> a.replacement.value.categoryId in categories)
    ensures var (reversal, replacement, _) := PlannedReversal(original, ctx, a, supply);
            FirstFlush(rows, categories, reversal, replacement)
            == if IdsAreNew(rows, a, supply) then Some(AfterFirstFlush(rows, reversal, replacement)) else None
  {
    ReversalRowAccepted(rows, categories, original, ctx, a, supply);
    if a.replacement.Some? && supply.eventId !in rows {
      ReplacementRowAccepted(rows, categories, original, ctx, a, supply);
    }
  }

  /** The rows a reversal leaves. */
  function AfterReversal(rows: Rows, flipped: Event, reversal: Event, replacement: Option<Event>): Rows {
    AfterFirstFlush(rows, reversal, replacement)[flipped.id := flipped]
  }

  lemma FirstFlushKeepsRows(rows: Rows, categories: Categories, reversal: Event, replacement: Option<Event>)
    requires RowsValid(rows, categories) && FirstFlush(rows, categories, reversal, replacement).Some?
    ensures FirstFlush(rows, categories, reversal, replacement).value == AfterFirstFlush(rows, reversal, replacement)
    ensures RowsValid(AfterFirstFlush(rows, reversal, replacement), categories)
  {
    WriteKeepsRows(rows, categories, reversal);
    if replacement.Some? {
      WriteKeepsRows(rows[reversal.id := reversal], categories, replacement.value);
    }
  }

  lemma FirstFlushKeepsOthers(rows: Rows, categories: Categories, reversal: Event, replacement: Option<Event>, k: Uuid)
    requires FirstFlush(rows, categories, reversal, replacement).Some? && k in rows
    ensures k in AfterFirstFlush(rows, reversal, replacement) && AfterFirstFlush(rows, reversal, replacement)[k] == rows[k]
  {
  }

  lemma FlipGoesThrough(rows: Rows, categories: Categories, x: Uuid, ctx: Context, reversal: Event,
                        replacement: Option<Event>, now: Instant)
    requires RowsValid(rows, categories) && LinksPresent(rows) && x in rows && Reversible(rows[x])
    requires FirstFlush(rows, categories, reversal, replacement).Some?
    ensures UpdateAccepted(AfterFirstFlush(rows, reversal, replacement), categories, Flipped(rows[x], ctx, now))
  {
    var original, after := rows[x], AfterFirstFlush(rows, reversal, replacement);
    RowFacts(rows, categories, x);
    FirstFlushKeepsRows(rows, categories, reversal, replacement);
    FirstFlushKeepsOthers(rows, categories, reversal, replacement, x);
    if original.replacementFor.Some? {
      FirstFlushKeepsOthers(rows, categories, reversal, replacement, original.replacementFor.value);
    }
    FlipAccepted(after, categories, original, ctx, now);
  }

  /**
   Every write of a reversal goes through, in the order the repository makes them, exactly when the
   ids it brings are new: no CHECK, index, foreign key or guard rule can stop it otherwise.
   */
  lemma GuardedWritesGoThrough(l: Ledger, ctx: Context, a: ReversalArgs, supply: Supply)
    requires Valid(l) && a.eventId in l.events && Reversible(l.events[a.eventId])
    requires ArgsAccepted(a) && (a.replacement.Some? ==> a.replacement.value.categoryId in l.categories)
    ensures var (reversal, replacement, flipped) := PlannedReversal(l.events[a.eventId], ctx, a, supply);
            BothFlushes(l.events, l.categories, flipped, reversal, replacement)
            == if IdsAreNew(l.events, a, supply) then Some(AfterReversal(l.events, flipped, reversal, replacement)) else None
  {
    var original := l.events[a.eventId];
    var (reversal, replacement, flipped) := PlannedReversal(original, ctx, a, supply);
    RowFacts(l.events, l.categories, a.eventId);
    FirstFlushGoesThrough(l.events, l.categories, original, ctx, a, supply);
    if IdsAreNew(l.events, a, supply) {
      FlipGoesThrough(l.events, l.categories, a.eventId, ctx, reversal, replacement, supply.now);
    }
  }

  /** Flipping the original first would lock the reversal out: the order of the flushes matters. */
  lemma FlippingFirstIsRejected(l: Ledger, ctx: Context, a: ReversalArgs, supply: Supply)
    requires Valid(l) && a.eventId in l.events && Reversible(l.events[a.eventId])
    ensures var original := l.events[a.eventId];
            var (reversal, replacement, flipped) := PlannedReversal(original, ctx, a, supply);
            && Update(l.events, l.categories, flipped) == Some(l.events[a.eventId := flipped])
            && Insert(l.events[a.eventId := flipped], l.categories, reversal) == None
  {
    RowFacts(l.events, l.categories, a.eventId);
    FlipAccepted(l.events, l.categories, l.events[a.eventId], ctx, supply.now);
  }

  lemma FlushesKeepRows(rows: Rows, categories: Categories, flipped: Event, reversal: Event, replacement: Option<Event>)
    requires RowsValid(rows, categories) && BothFlushes(rows, categories, flipped, reversal, replacement).Some?
    ensures BothFlushes(rows, categories, flipped, reversal, replacement).value == AfterReversal(rows, flipped, reversal, replacement)
    ensures RowsValid(AfterReversal(rows, flipped, reversal, replacement), categories)
    ensures reversal.id !in rows && NewOperation(rows, reversal.operationId)
    ensures replacement.Some? ==> replacement.value.id !in rows && replacement.value.id != reversal.id
  {
    FirstFlushKeepsRows(rows, categories, reversal, replacement);
    WriteKeepsRows(AfterFirstFlush(rows, reversal, replacement), categories, flipped);
  }

  lemma ReversalKeepsMoney(rows: Rows, ctx: Context, a: ReversalArgs, supply: Supply)
    requires MoneyExact(rows) && a.eventId in rows && ArgsAccepted(a)
    ensures var (reversal, replacement, flipped) := PlannedReversal(rows[a.eventId], ctx, a, supply);
            MoneyExact(AfterReversal(rows, flipped, reversal, replacement))
  {
  }

  /** A reversed event and its reversal, added together: `after` differs from `rows` only at these two. */
  ghost predicate PairAdded(rows: Rows, after: Rows, x: Uuid, r: Uuid) {
    && x in rows && r !in rows && after.Keys == rows.Keys + {r}
    && (forall k {:trigger after[k]} :: k in rows && k != x ==> after[k] == rows[k])
    && Reversible(rows[x]) && after[x].replacementFor == rows[x].replacementFor
    && after[r].reverses == Some(x) && Undoes(after[r], after[x])
  }

  lemma PairKeepsReversals(rows: Rows, after: Rows, x: Uuid, r: Uuid)
    requires LinksPresent(rows) && ReversalsSound(rows) && PairAdded(rows, after, x, r)
    ensures ReversalsSound(after)
  {
  }

  lemma PairKeepsReversalsUnique(rows: Rows, after: Rows, x: Uuid, r: Uuid)
    requires ReversalsSound(rows) && ReversalsUnique(rows) && PairAdded(rows, after, x, r)
    ensures ReversalsUnique(after)
  {
  }

  lemma PairKeepsPresence(rows: Rows, after: Rows, x: Uuid, r: Uuid)
    requires LinksPresent(rows) && PairAdded(rows, after, x, r)
    ensures LinksPresent(after)
  {
  }

  lemma PairKeepsReversed(rows: Rows, after: Rows, x: Uuid, r: Uuid)
    requires ReversedHasReversal(rows) && PairAdded(rows, after, x, r)
    ensures ReversedHasReversal(after)
  {
    forall k | k in after && after[k].posting == Reversed ensures HasReversal(after, k) {
      if k == x {
        assert after[r].reverses == Some(k);
      } else {
        assert HasReversal(rows, k);
        var q :| q in rows && rows[q].reverses == Some(k);
        assert q != x && after[q] == rows[q];
      }
    }
  }

  lemma PairKeepsReplacements(rows: Rows, after: Rows, x: Uuid, r: Uuid)
    requires LinksPresent(rows) && ReplacementsSound(rows) && PairAdded(rows, after, x, r)
    ensures ReplacementsSound(after)
  {
  }

  lemma PairKeepsReplacementsUnique(rows: Rows, after: Rows, x: Uuid, r: Uuid)
    requires ReplacementsUnique(rows) && PairAdded(rows, after, x, r)
    ensures ReplacementsUnique(after)
  {
  }

  lemma PairKeepsLinks(rows: Rows, after: Rows, x: Uuid, r: Uuid)
    requires Links(rows) && PairAdded(rows, after, x, r)
    ensures Links(after)
  {
    PairKeepsPresence(rows, after, x, r);
    PairKeepsReversals(rows, after, x, r);
    PairKeepsReversalsUnique(rows, after, x, r);
    PairKeepsReversed(rows, after, x, r);
    PairKeepsReplacements(rows, after, x, r);
    PairKeepsReplacementsUnique(rows, after, x, r);
    RankLast(rows, after, r);
  }

  lemma PairIsAdded(rows: Rows, ctx: Context, a: ReversalArgs, supply: Supply)
    requires WellKeyed(rows) && a.eventId in rows && Reversible(rows[a.eventId]) && supply.eventId !in rows
    requires AllChecked(rows)
    ensures var (reversal, _, flipped) := PlannedReversal(rows[a.eventId], ctx, a, supply);
            PairAdded(rows, AfterReversal(rows, flipped, reversal, None), a.eventId, supply.eventId)
  {
  }

  /** The replacement can be attached once the pair is in. */
  lemma ReplacementIsAdded(rows: Rows, ctx: Context, a: ReversalArgs, supply: Supply)
    requires WellKeyed(rows) && ReversalsSound(rows) && ReplacementsSound(rows)
    requires a.eventId in rows && Reversible(rows[a.eventId]) && a.replacement.Some? && supply.eventId !in rows
    requires supply.secondEventId !in rows && supply.secondEventId != supply.eventId
    ensures var (reversal, replacement, flipped) := PlannedReversal(rows[a.eventId], ctx, a, supply);
            var paired := AfterReversal(rows, flipped, reversal, None);
            var after := AfterReversal(rows, flipped, reversal, replacement);
            Extends(paired, after, supply.secondEventId) && Attachable(paired, after[supply.secondEventId])
  {
  }

  lemma ReversalKeepsLinks(rows: Rows, ctx: Context, a: ReversalArgs, supply: Supply)
    requires Links(rows) && WellKeyed(rows) && AllChecked(rows) && a.eventId in rows && Reversible(rows[a.eventId])
    requires supply.eventId !in rows
    requires a.replacement.Some? ==> supply.secondEventId !in rows && supply.secondEventId != supply.eventId
    ensures var (reversal, replacement, flipped) := PlannedReversal(rows[a.eventId], ctx, a, supply);
            Links(AfterReversal(rows, flipped, reversal, replacement))
  {
    var (reversal, replacement, flipped) := PlannedReversal(rows[a.eventId], ctx, a, supply);
    var paired := AfterReversal(rows, flipped, reversal, None);
    PairIsAdded(rows, ctx, a, supply);
    PairKeepsLinks(rows, paired, a.eventId, supply.eventId);
    if a.replacement.Some? {
      ReplacementIsAdded(rows, ctx, a, supply);
      InsertKeepsLinks(paired, AfterReversal(rows, flipped, reversal, replacement), supply.secondEventId);
    }
  }

  /** What a successful reversal wrote, and that it returns exactly what it wrote. */
  lemma ReverseWrote(l: Ledger, ctx: Context, a: ReversalArgs, expectedVersion: int, supply: Supply)
    requires RowsValid(l.events, l.categories) && ReverseEvent(l, ctx, a, expectedVersion, supply).1.Ok?
    ensures a.eventId in l.events && Reversible(l.events[a.eventId])
    ensures var (reversal, replacement, flipped) := PlannedReversal(l.events[a.eventId], ctx, a, supply);
            ReverseEvent(l, ctx, a, expectedVersion, supply)
            == (l.(events := AfterReversal(l.events, flipped, reversal, replacement)), Ok(Lifecycle(flipped, Some(reversal), replacement)))
    ensures l.events[a.eventId].id == a.eventId && supply.eventId !in l.events && NewOperation(l.events, a.operationId)
    ensures a.replacement.Some? ==> supply.secondEventId !in l.events && supply.secondEventId != supply.eventId
  {
  }

  lemma ReversalKeepsRows(l: Ledger, ctx: Context, a: ReversalArgs, expectedVersion: int, supply: Supply)
    requires RowsValid(l.events, l.categories) && ReverseEvent(l, ctx, a, expectedVersion, supply).1.Ok?
    ensures var (reversal, replacement, flipped) := PlannedReversal(l.events[a.eventId], ctx, a, supply);
            RowsValid(AfterReversal(l.events, flipped, reversal, replacement), l.categories)
  {
    var (reversal, replacement, flipped) := PlannedReversal(l.events[a.eventId], ctx, a, supply);
    FlushesKeepRows(l.events, l.categories, flipped, reversal, replacement);
  }

  lemma ReverseKeepsValid(l: Ledger, ctx: Context, a: ReversalArgs, expectedVersion: int, supply: Supply)
    requires Valid(l) && ArgsAccepted(a)
    ensures Valid(ReverseEvent(l, ctx, a, expectedVersion, supply).0)
  {
    if ReverseEvent(l, ctx, a, expectedVersion, supply).1.Ok? {
      ReverseWrote(l, ctx, a, expectedVersion, supply);
      ReversalKeepsRows(l, ctx, a, expectedVersion, supply);
      ReversalKeepsLinks(l.events, ctx, a, supply);
      ReversalKeepsMoney(l.events, ctx, a, supply);
    }
  }
}
