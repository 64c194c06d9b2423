/**
 What no command ever takes back, and the shape corrections give the ledger.

 Rows are never deleted and approved facts never change. `Later` collects everything a caller who has
 seen one ledger may rely on in all that follow, and the correction graph is read off the invariant.
 */
module LedgerHistory {
  import opened Common
  import opened Ledger
  import opened LedgerSafety
  import MoneyModel

  // ---- Later ledgers -----------------------------------------------------------------------

  /** Everything the submitter said. */
  predicate SameFacts(e: Event, f: Event) {
    && f.amount == e.amount && f.currency == e.currency && f.occurredOn == e.occurredOn && f.activity == e.activity
    && f.categoryId == e.categoryId && f.paymentMethod == e.paymentMethod
    && f.counterparty == e.counterparty && f.reference == e.reference && f.notes == e.notes
  }

  /** What one row may turn into. A reversal may turn into nothing else. */
  predicate Evolves(e: Event, f: Event) {
    && f.id == e.id && f.kind == e.kind && f.direction == e.direction && f.operationId == e.operationId
    && f.createdBy == e.createdBy && f.createdAt == e.createdAt
    && f.reverses == e.reverses && f.replacementFor == e.replacementFor
    && (e.approval != Pending ==>
          && SameFacts(e, f)
          && f.approval == e.approval && f.reviewedBy == e.reviewedBy && f.reviewedAt == e.reviewedAt
          && f.decisionReason == e.decisionReason && f.decisionExplanation == e.decisionExplanation)
    && (e.posting == Reversed ==> f.posting == Reversed)
    && (e.archivedAt.Some? ==> f.archivedAt == e.archivedAt && f.archivedBy == e.archivedBy && f.archiveReason == e.archiveReason)
    && (f == e || e.version < f.version)
    && (e.reverses.Some? ==> f == e)
  }

  /** Rows that come later attach only to events that had not been reversed yet. */
  ghost predicate NewLinksAreToOpenEvents(rows: Rows, after: Rows) {
    forall k, x {:trigger after[k], rows[x]} ::
      (k in after && k !in rows && x in rows && (after[k].reverses == Some(x) || after[k].replacementFor == Some(x)))
      ==> rows[x].posting != Reversed
  }

  ghost predicate AllEvolve(rows: Rows, after: Rows) {
    forall k {:trigger rows[k]} {:trigger after[k]} :: k in rows ==> k in after && Evolves(rows[k], after[k])
  }

  ghost predicate Later(rows: Rows, after: Rows) {
    AllEvolve(rows, after) && NewLinksAreToOpenEvents(rows, after)
  }

  lemma NothingHappenedIsLater(rows: Rows)
    ensures Later(rows, rows)
  {
  }

  lemma LaterTransitively(rows: Rows, middle: Rows, after: Rows)
    requires Later(rows, middle) && Later(middle, after)
    ensures Later(rows, after)
  {
  }

  // ---- What a command stores ---------------------------------------------------------------

  /** What a row says about the event itself, as it would be submitted. */
  function Submission(e: Event): Draft {
    Draft(e.kind, e.activity, e.occurredOn, e.categoryId, e.amount, e.currency, e.paymentMethod, e.counterparty, e.reference, e.notes)
  }

  /** A created event stores what was submitted, by whom and under which operation; only an administrator's counts at once. */
  lemma SubmissionsAreStored(l: Ledger, ctx: Context, operationId: Uuid, d: Draft, now: Instant, id: Uuid)
    requires CreateEvent(l, ctx, operationId, d, now, id).1.Ok?
    ensures var (after, r) := CreateEvent(l, ctx, operationId, d, now, id);
            var e := r.value;
            && id !in l.events && e.id == id && after == l.(events := l.events[id := e])
            && Submission(e) == d && e.operationId == operationId && e.createdBy == ctx.membership && e.createdAt == now
            && e.reverses.None? && e.replacementFor.None? && e.archivedAt.None?
            && (if ctx.role == Admin
                then e.approval == Approved && e.posting == Effective
                     && e.reviewedBy == Some(ctx.membership) && e.reviewedAt == Some(now) && e.decisionReason == Some(AdminCreated)
                else e.approval == Pending && e.posting == NotEffective && e.reviewedBy.None? && e.reviewedAt.None?)
  {
  }

  /** An edit that names every field, as drawn from a submission. */
  function Everything(d: Draft): Changes {
    Changes(Some(d.activity), Some(d.occurredOn), Some(d.categoryId), Some((d.amount, d.currency)), Some(d.paymentMethod),
            Some(d.counterparty), Some(d.reference), Some(d.notes))
  }

  /** The fields `c` names, with the values of a submission. */
  function Restricted(c: Changes, d: Draft): Changes {
    Changes(if c.activity.Some? then Some(d.activity) else None,
            if c.occurredOn.Some? then Some(d.occurredOn) else None,
            if c.categoryId.Some? then Some(d.categoryId) else None,
            if c.money.Some? then Some((d.amount, d.currency)) else None,
            if c.paymentMethod.Some? then Some(d.paymentMethod) else None,
            if c.counterparty.Some? then Some(d.counterparty) else None,
            if c.reference.Some? then Some(d.reference) else None,
            if c.notes.Some? then Some(d.notes) else None)
  }

  function Last<T>(first: Option<T>, second: Option<T>): Option<T> {
    if second.Some? then second else first
  }

  /** One edit for two: what the second one names wins. */
  function Combined(c: Changes, d: Changes): Changes {
    Changes(Last(c.activity, d.activity), Last(c.occurredOn, d.occurredOn), Last(c.categoryId, d.categoryId),
            Last(c.money, d.money), Last(c.paymentMethod, d.paymentMethod), Last(c.counterparty, d.counterparty),
            Last(c.reference, d.reference), Last(c.notes, d.notes))
  }

  /**
   The laws of editing, which leave it no freedom: an edit that names everything stores a submission; one
   that repeats what a row says, in whichever fields, changes nothing of it; two edits are the one that
   names what either does. Taking an edit back by its old values is a consequence.
   */
  lemma EditLaws(e: Event, c: Changes, d: Changes, whole: Draft, ctx: Context, now: Instant, ctx': Context,
                 now': Instant)
    ensures Submission(Edited(e, Everything(whole), ctx, now)) == whole.(kind := e.kind)
    ensures Submission(Edited(e, Restricted(c, Submission(e)), ctx, now)) == Submission(e)
    ensures Submission(Edited(Edited(e, c, ctx, now), d, ctx', now')) == Submission(Edited(e, Combined(c, d), ctx, now))
    ensures Submission(Edited(Edited(e, c, ctx, now), Restricted(c, Submission(e)), ctx', now')) == Submission(e)
    ensures Edited(e, c, ctx, now).version > e.version
  {
  }

  /**
   An accepted edit can be taken back by naming the same fields with their old values: the database never
   stands in the way, and the repository does exactly when the event's former category has been
   deactivated or no longer covers it. Nothing else is left changed.
   */
  lemma EditsAreUndone(l: Ledger, ctx: Context, eventId: Uuid, expectedVersion: int, c: Changes, now: Instant,
                       now': Instant)
    requires Valid(l) && ChangesAccepted(c) && UpdatePendingEvent(l, ctx, eventId, expectedVersion, c, now).1.Ok?
    ensures eventId in l.events
    ensures var e, edited := l.events[eventId], UpdatePendingEvent(l, ctx, eventId, expectedVersion, c, now).0;
            var (after, r) := UpdatePendingEvent(edited, ctx, eventId, expectedVersion + 1, Restricted(c, Submission(e)), now');
            && (r.Ok? <==> l.categories[e.categoryId].active && Covers(l.categories[e.categoryId], e.kind, e.activity))
            && (r.Ok? ==> Submission(r.value) == Submission(e) && after == l.(events := l.events[eventId := r.value]))
            && (r.Err? ==> after == edited && r.error in {NotFound, InvalidCategory})
  {
    EditWrote(l, ctx, eventId, expectedVersion, c, now);
    EditKeepsValid(l, ctx, eventId, expectedVersion, c, now);
    EditNeeds(l, ctx, eventId, expectedVersion, c, now);
    RowFacts(l.events, l.categories, eventId);
    assert MoneyModel.StoredExact(l.events[eventId].amount, l.events[eventId].currency);
    OldValuesGoBack(l, l.events[eventId], UpdatePendingEvent(l, ctx, eventId, expectedVersion, c, now).0, ctx, c, now, now');
  }

  lemma EditNeeds(l: Ledger, ctx: Context, eventId: Uuid, expectedVersion: int, c: Changes, now: Instant)
    requires UpdatePendingEvent(l, ctx, eventId, expectedVersion, c, now).1.Ok?
    ensures FinanceValid(l.access, ctx) && ctx.role == Contributor && eventId in l.events
    ensures l.events[eventId].createdBy == ctx.membership && l.events[eventId].version == expectedVersion
  {
  }

  lemma OldValuesGoBack(l: Ledger, e: Event, edited: Ledger, ctx: Context, c: Changes, now: Instant, now': Instant)
    requires Checks(e) && MoneyModel.StoredExact(e.amount, e.currency) && e.categoryId in l.categories
    requires FinanceValid(l.access, ctx) && ctx.role == Contributor && e.createdBy == ctx.membership && Editable(e)
    requires edited == l.(events := l.events[e.id := Edited(e, c, ctx, now)]) && Valid(edited)
    ensures var (after, r) := UpdatePendingEvent(edited, ctx, e.id, e.version + 1, Restricted(c, Submission(e)), now');
            && (r.Ok? <==> l.categories[e.categoryId].active && Covers(l.categories[e.categoryId], e.kind, e.activity))
            && (r.Ok? ==> Submission(r.value) == Submission(e) && after == l.(events := l.events[e.id := r.value]))
            && (r.Err? ==> after == edited && r.error in {NotFound, InvalidCategory})
  {
    OldValuesAccepted(e, c);
    EditGoesThrough(edited, ctx, e.id, e.version + 1, Restricted(c, Submission(e)), now');
    OldValuesAreTaken(l, e, edited, ctx, c, now, now');
  }

  lemma OldValuesAreTaken(l: Ledger, e: Event, edited: Ledger, ctx: Context, c: Changes, now: Instant, now': Instant)
    requires e.categoryId in l.categories
    requires FinanceValid(l.access, ctx) && ctx.role == Contributor && e.createdBy == ctx.membership && Editable(e)
    requires edited == l.(events := l.events[e.id := Edited(e, c, ctx, now)])
    requires UpdatePendingEvent(edited, ctx, e.id, e.version + 1, Restricted(c, Submission(e)), now').1 != Err(IntegrityViolation)
    ensures var (after, r) := UpdatePendingEvent(edited, ctx, e.id, e.version + 1, Restricted(c, Submission(e)), now');
            && (r.Ok? <==> l.categories[e.categoryId].active && Covers(l.categories[e.categoryId], e.kind, e.activity))
            && (r.Ok? ==> Submission(r.value) == Submission(e) && after == l.(events := l.events[e.id := r.value]))
            && (r.Err? ==> after == edited && r.error in {NotFound, InvalidCategory})
  {
    var undo := Restricted(c, Submission(e));
    EditOutcome(edited, ctx, e.id, e.version + 1, undo, now');
    OldFactsReturn(e, c, ctx, now, now');
    assert edited.events[e.id] == Edited(e, c, ctx, now);
  }

  lemma OldValuesAccepted(e: Event, c: Changes)
    requires Checks(e) && MoneyModel.StoredExact(e.amount, e.currency)
    ensures ChangesAccepted(Restricted(c, Submission(e)))
  {
  }

  lemma OldFactsReturn(e: Event, c: Changes, ctx: Context, now: Instant, now': Instant)
    ensures var f := Edited(Edited(e, c, ctx, now), Restricted(c, Submission(e)), ctx, now');
            Submission(f) == Submission(e) && f.categoryId == e.categoryId && f.kind == e.kind && f.activity == e.activity
  {
  }

  /** How an edit whose version and owner are right ends, when the database accepts it. */
  lemma EditOutcome(l: Ledger, ctx: Context, eventId: Uuid, expectedVersion: int, c: Changes, now: Instant)
    requires FinanceValid(l.access, ctx) && ctx.role == Contributor && eventId in l.events
    requires l.events[eventId].createdBy == ctx.membership && l.events[eventId].version == expectedVersion && Editable(l.events[eventId])
    requires l.events[eventId].id == eventId
    requires UpdatePendingEvent(l, ctx, eventId, expectedVersion, c, now).1 != Err(IntegrityViolation)
    ensures var edited, (after, r) := Edited(l.events[eventId], c, ctx, now), UpdatePendingEvent(l, ctx, eventId, expectedVersion, c, now);
            && (r.Ok? <==> edited.categoryId in l.categories && l.categories[edited.categoryId].active
                           && Covers(l.categories[edited.categoryId], edited.kind, edited.activity))
            && (r.Ok? ==> r.value == edited && after == l.(events := l.events[eventId := edited]))
            && (r.Err? ==> after == l && r.error in {NotFound, InvalidCategory})
  {
  }

  /** Made and approved at once, by one member and for one reason. */
  predicate Reviewed(e: Event, ctx: Context, now: Instant, reason: Reason) {
    && e.createdBy == ctx.membership && e.createdAt == now && e.archivedAt.None?
    && e.reviewedBy == Some(ctx.membership) && e.reviewedAt == Some(now) && e.decisionReason == Some(reason)
  }

  predicate SameReview(e: Event, f: Event) {
    f.reviewedBy == e.reviewedBy && f.reviewedAt == e.reviewedAt && f.decisionReason == e.decisionReason
  }

  /** A reversal repeats its original on the other side; a replacement stores what was submitted; both answer for it. */
  lemma CorrectionsAreStored(l: Ledger, ctx: Context, a: ReversalArgs, expectedVersion: int, supply: Supply)
    requires ReverseEvent(l, ctx, a, expectedVersion, supply).1.Ok?
    ensures a.eventId in l.events
    ensures var e, found := l.events[a.eventId], ReverseEvent(l, ctx, a, expectedVersion, supply).1.value;
            var r := found.reversal.value;
            && found.reversal.Some? && r.reverses == Some(e.id) && r.direction != e.direction && r.decisionReason == Some(a.reason)
            && Submission(r).(kind := e.kind, occurredOn := e.occurredOn) == Submission(e)
            && r.occurredOn == a.occurredOn && r.operationId == a.operationId
            && Reviewed(r, ctx, supply.now, a.reason) && r.replacementFor.None?
            && found.original.posting == Reversed && found.original.version == expectedVersion + 1 && Submission(found.original) == Submission(e)
            && SameReview(e, found.original) && found.original.archivedAt == e.archivedAt && found.original.archivedBy == e.archivedBy
            && found.original.archiveReason == e.archiveReason
            && (a.replacement.Some? <==> found.replacement.Some?)
            && (a.replacement.Some? ==>
                  && Submission(found.replacement.value) == a.replacement.value && found.replacement.value.replacementFor == Some(e.id)
                  && found.replacement.value.operationId == a.derivedOperationId && found.replacement.value.reverses.None?
                  && Reviewed(found.replacement.value, ctx, supply.now, CorrectionReplacement))
  {
  }

  /** A decision records the decider, the reason and the explanation, and touches nothing the submitter said. */
  lemma DecisionsAreStored(l: Ledger, ctx: Context, eventId: Uuid, decision: Decision, reason: Reason,
                           explanation: Option<string>, now: Instant)
    requires DecidePendingEvent(l, ctx, eventId, decision, reason, explanation, now).1.Ok?
    ensures eventId in l.events
    ensures var e, f := l.events[eventId], DecidePendingEvent(l, ctx, eventId, decision, reason, explanation, now).1.value;
            && Submission(f) == Submission(e) && f.version == e.version + 1
            && e.archivedAt.None? && f.archivedAt == e.archivedAt && f.archivedBy == e.archivedBy
            && f.reviewedBy == Some(ctx.membership) && f.reviewedAt == Some(now)
            && f.decisionReason == Some(reason) && f.decisionExplanation == explanation
            && (if decision == Approve then f.approval == Approved && f.posting == Effective
                else f.approval == Rejected && f.posting == NotEffective && explanation.Some?)
  {
  }

  /** Archiving records who, when and why, and touches nothing else. */
  lemma ArchivesAreStored(l: Ledger, ctx: Context, eventId: Uuid, expectedVersion: int, reason: Reason, now: Instant)
    requires ArchiveEvent(l, ctx, eventId, expectedVersion, reason, now).1.Ok?
    ensures eventId in l.events
    ensures var e, f := l.events[eventId], ArchiveEvent(l, ctx, eventId, expectedVersion, reason, now).1.value;
            && Submission(f) == Submission(e) && f.approval == e.approval && f.posting == e.posting && e.approval != Pending
            && e.archivedAt.None? && f.archivedAt == Some(now) && f.archivedBy == Some(ctx.membership) && f.archiveReason == Some(reason)
            && SameReview(e, f) && f.version == expectedVersion + 1
  {
  }

  // ---- Every command leads to a later ledger -----------------------------------------------

  lemma UpdateIsLater(rows: Rows, e: Event)
    requires e.id in rows && Evolves(rows[e.id], e)
    ensures Later(rows, rows[e.id := e])
  {
  }

  lemma CreateIsLater(l: Ledger, ctx: Context, operationId: Uuid, d: Draft, now: Instant, id: Uuid)
    ensures Later(l.events, CreateEvent(l, ctx, operationId, d, now, id).0.events)
  {
  }

  lemma EditEvolves(e: Event, c: Changes, ctx: Context, now: Instant)
    requires Checks(e) && Editable(e)
    ensures Evolves(e, Edited(e, c, ctx, now))
  {
  }

  lemma EditIsLater(l: Ledger, ctx: Context, eventId: Uuid, expectedVersion: int, c: Changes, now: Instant)
    requires WellKeyed(l.events) && AllChecked(l.events)
    ensures Later(l.events, UpdatePendingEvent(l, ctx, eventId, expectedVersion, c, now).0.events)
  {
    NothingHappenedIsLater(l.events);
    if UpdatePendingEvent(l, ctx, eventId, expectedVersion, c, now).1.Ok? {
      EditWrote(l, ctx, eventId, expectedVersion, c, now);
      assert l.events[eventId].id == eventId && Checks(l.events[eventId]);
      EditEvolves(l.events[eventId], c, ctx, now);
      UpdateIsLater(l.events, Edited(l.events[eventId], c, ctx, now));
    }
  }

  lemma DecisionEvolves(e: Event, decision: Decision, reason: Reason, explanation: Option<string>, ctx: Context,
                        now: Instant)
    requires Checks(e) && Editable(e)
    ensures Evolves(e, Decided(e, decision, reason, explanation, ctx, now))
  {
  }

  lemma DecisionIsLater(l: Ledger, ctx: Context, eventId: Uuid, decision: Decision, reason: Reason,
                        explanation: Option<string>, now: Instant)
    requires WellKeyed(l.events) && AllChecked(l.events)
    ensures Later(l.events, DecidePendingEvent(l, ctx, eventId, decision, reason, explanation, now).0.events)
  {
    NothingHappenedIsLater(l.events);
    if DecidePendingEvent(l, ctx, eventId, decision, reason, explanation, now).1.Ok? {
      DecisionWrote(l, ctx, eventId, decision, reason, explanation, now);
      assert l.events[eventId].id == eventId && Checks(l.events[eventId]);
      DecisionEvolves(l.events[eventId], decision, reason, explanation, ctx, now);
      UpdateIsLater(l.events, Decided(l.events[eventId], decision, reason, explanation, ctx, now));
    }
  }

  lemma ArchivingEvolves(e: Event, reason: Reason, ctx: Context, now: Instant)
    requires e.archivedAt.None? && e.reverses.None?
    ensures Evolves(e, Archived(e, reason, ctx, now))
  {
  }

  lemma ArchiveIsLater(l: Ledger, ctx: Context, eventId: Uuid, expectedVersion: int, reason: Reason, now: Instant)
    requires WellKeyed(l.events) && LinksPresent(l.events) && ReversalsSound(l.events)
    ensures Later(l.events, ArchiveEvent(l, ctx, eventId, expectedVersion, reason, now).0.events)
  {
    NothingHappenedIsLater(l.events);
    if ArchiveEvent(l, ctx, eventId, expectedVersion, reason, now).1.Ok? {
      ArchiveWrote(l, ctx, eventId, expectedVersion, reason, now);
      ArchivingEvolves(l.events[eventId], reason, ctx, now);
      UpdateIsLater(l.events, Archived(l.events[eventId], reason, ctx, now));
    }
  }

  lemma FlipEvolves(e: Event, ctx: Context, now: Instant)
    requires Reversible(e)
    ensures Evolves(e, Flipped(e, ctx, now))
  {
  }

  lemma FlushesAreLater(rows: Rows, flipped: Event, reversal: Event, replacement: Option<Event>)
    requires flipped.id in rows && Evolves(rows[flipped.id], flipped) && rows[flipped.id].posting != Reversed
    requires reversal.id !in rows && reversal.reverses == Some(flipped.id) && reversal.replacementFor.None?
    requires replacement.Some? ==>
               && replacement.value.id !in rows && replacement.value.id != reversal.id
               && replacement.value.reverses.None? && replacement.value.replacementFor == Some(flipped.id)
    ensures Later(rows, AfterReversal(rows, flipped, reversal, replacement))
  {
  }

  lemma ReverseIsLater(l: Ledger, ctx: Context, a: ReversalArgs, expectedVersion: int, supply: Supply)
    requires RowsValid(l.events, l.categories)
    ensures Later(l.events, ReverseEvent(l, ctx, a, expectedVersion, supply).0.events)
  {
    NothingHappenedIsLater(l.events);
    if ReverseEvent(l, ctx, a, expectedVersion, supply).1.Ok? {
      ReverseWrote(l, ctx, a, expectedVersion, supply);
      assert l.events[a.eventId].id == a.eventId;
      FlipEvolves(l.events[a.eventId], ctx, supply.now);
      var (reversal, replacement, flipped) := PlannedReversal(l.events[a.eventId], ctx, a, supply);
      FlushesAreLater(l.events, flipped, reversal, replacement);
    }
  }

  // ---- What a caller finds again -----------------------------------------------------------

  /** The lifecycle query's answer; in a valid ledger there is only one. */
  ghost function LifecycleOf(rows: Rows, eventId: Uuid): (found: Lifecycle)
    requires eventId in rows
    ensures found.original == rows[eventId]
  {
    Lifecycle(rows[eventId],
              if exists r :: IsReversalOf(rows, r, eventId) then var r :| IsReversalOf(rows, r, eventId); Some(rows[r]) else None,
              if exists y :: IsReplacementOf(rows, y, eventId) then var y :| IsReplacementOf(rows, y, eventId); Some(rows[y]) else None)
  }

  lemma LifecycleOfIsResult(rows: Rows, eventId: Uuid)
    requires WellKeyed(rows) && eventId in rows
    ensures IsLifecycleResult(rows, eventId, LifecycleOf(rows, eventId))
  {
  }

  /** A lifecycle answer names one event, its only reversal and its only replacement. */
  lemma LifecycleIsUnique(rows: Rows, eventId: Uuid, a: Lifecycle, b: Lifecycle)
    requires WellKeyed(rows) && ReversalsUnique(rows) && ReplacementsUnique(rows)
    requires IsLifecycleResult(rows, eventId, a) && IsLifecycleResult(rows, eventId, b)
    ensures a == b
  {
  }

  /**
   Once an event is reversed, its lifecycle is settled: in every later valid ledger the query finds
   the very same reversal row, and the replacement under the same id, or again no replacement.
   */
  lemma LifecycleIsSettled(rows: Rows, after: Rows, eventId: Uuid, found: Lifecycle, again: Lifecycle)
    requires Links(rows) && Links(after) && WellKeyed(rows) && WellKeyed(after) && Later(rows, after)
    requires IsLifecycleResult(rows, eventId, found) && found.original.posting == Reversed
    requires IsLifecycleResult(after, eventId, again)
    ensures again.original.id == found.original.id && again.reversal == found.reversal
    ensures again.replacement.Some? == found.replacement.Some?
    ensures found.replacement.Some? ==> again.replacement.value.id == found.replacement.value.id
  {
    ReversalFoundAgain(rows, after, eventId, found, again);
    ReplacementFoundAgain(rows, after, eventId, found, again);
  }

  lemma ReversalFoundAgain(rows: Rows, after: Rows, eventId: Uuid, found: Lifecycle, again: Lifecycle)
    requires ReversedHasReversal(rows) && ReversalsSound(rows) && ReversalsUnique(after) && WellKeyed(after) && AllEvolve(rows, after)
    requires IsLifecycleResult(rows, eventId, found) && rows[eventId].posting == Reversed
    requires IsLifecycleResult(after, eventId, again)
    ensures again.reversal == found.reversal
  {
    assert HasReversal(rows, eventId);
    var r :| r in rows && rows[r].reverses == Some(eventId);
    assert Undoes(rows[r], rows[eventId]);
    assert IsReversalOf(rows, r, eventId);
    if found.reversal.Some? {
      var id := found.reversal.value.id;
      assert Evolves(rows[id], after[id]);
      assert IsReversalOf(after, id, eventId);
    }
  }

  lemma ReplacementFoundAgain(rows: Rows, after: Rows, eventId: Uuid, found: Lifecycle, again: Lifecycle)
    requires ReplacementsUnique(after) && WellKeyed(after) && Later(rows, after)
    requires IsLifecycleResult(rows, eventId, found) && rows[eventId].posting == Reversed
    requires IsLifecycleResult(after, eventId, again)
    ensures again.replacement.Some? == found.replacement.Some?
    ensures found.replacement.Some? ==> again.replacement.value.id == found.replacement.value.id
  {
    if found.replacement.Some? {
      var y := found.replacement.value.id;
      assert Evolves(rows[y], after[y]);
      assert IsReplacementOf(after, y, eventId);
    } else if again.replacement.Some? {
      var y := again.replacement.value.id;
      assert IsReplacementOf(after, y, eventId);
      if y in rows {
        assert Evolves(rows[y], after[y]);
        assert IsReplacementOf(rows, y, eventId);
      }
      assert false;
    }
  }

  // ---- The correction graph ----------------------------------------------------------------

  /** Each event replaces the one before it. */
  ghost predicate CorrectionChain(rows: Rows, chain: seq<Uuid>) {
    && (forall i {:trigger chain[i]} :: 0 <= i < |chain| ==> chain[i] in rows)
    && (forall i, j {:trigger chain[i], chain[j]} :: 0 <= i && j == i + 1 < |chain| ==> rows[chain[j]].replacementFor == Some(chain[i]))
  }

  lemma RankStep(rows: Rows, rank: map<Uuid, int>, bound: int, chain: seq<Uuid>, j: nat)
    requires Ranked(rows, rank, bound) && CorrectionChain(rows, chain) && 0 < j < |chain|
    ensures chain[j - 1] in rank && chain[j] in rank && rank[chain[j - 1]] < rank[chain[j]]
  {
  }

  lemma {:induction false} StepsAddUp(ranks: seq<int>, i: nat, j: nat)
    requires i < j < |ranks| && forall j, k {:trigger ranks[j], ranks[k]} :: 0 <= j && k == j + 1 < |ranks| ==> ranks[j] < ranks[k]
    ensures ranks[i] < ranks[j]
  {
    if i < j - 1 {
      StepsAddUp(ranks, i, j - 1);
    }
  }

  lemma ChainsNeverMeet(rows: Rows, rank: map<Uuid, int>, bound: int, chain: seq<Uuid>)
    requires Ranked(rows, rank, bound) && CorrectionChain(rows, chain)
    ensures forall i, j :: 0 <= i < j < |chain| ==> chain[i] != chain[j]
  {
    var ranks := seq(|chain|, i requires 0 <= i < |chain| && chain[i] in rank => rank[chain[i]]);
    forall j, k | 0 <= j && k == j + 1 < |ranks| ensures ranks[j] < ranks[k] {
      RankStep(rows, rank, bound, chain, k);
    }
    forall i: nat, j: nat | i < j < |chain| ensures chain[i] != chain[j] {
      StepsAddUp(ranks, i, j);
    }
  }

  /** A correction chain never meets itself, and only its last event can still be effective. */
  lemma CorrectionChainsEndEffective(rows: Rows, chain: seq<Uuid>)
    requires Links(rows) && CorrectionChain(rows, chain)
    ensures forall i, j :: 0 <= i < j < |chain| ==> chain[i] != chain[j]
    ensures forall i :: 0 <= i < |chain| - 1 ==> rows[chain[i]].posting == Reversed
  {
    var rank, bound :| Ranked(rows, rank, bound);
    ChainsNeverMeet(rows, rank, bound, chain);
    forall i | 0 <= i < |chain| - 1 ensures rows[chain[i]].posting == Reversed {
      assert rows[chain[i + 1]].replacementFor == Some(chain[i]);
    }
  }

  lemma {:induction false} ChainsAgree(rows: Rows, a: seq<Uuid>, b: seq<Uuid>, i: nat)
    requires ReplacementsUnique(rows) && CorrectionChain(rows, a) && CorrectionChain(rows, b)
    requires i < |a| && i < |b| && a[0] == b[0]
    ensures a[i] == b[i]
  {
    if i > 0 {
      ChainsAgree(rows, a, b, i - 1);
      assert rows[a[i]].replacementFor == rows[b[i]].replacementFor;
    }
  }

  /** Corrections never fork or join: two chains from one event agree as far as both go. */
  lemma CorrectionChainsNeverFork(rows: Rows, a: seq<Uuid>, b: seq<Uuid>, i: nat)
    requires Links(rows) && CorrectionChain(rows, a) && CorrectionChain(rows, b)
    requires i < |a| && i < |b| && a[0] == b[0]
    ensures a[i] == b[i]
  {
    ChainsAgree(rows, a, b, i);
  }

  /** At most one reversal and one replacement each; reversals are never reversed nor replaced. */
  lemma LinksAreFunctional(rows: Rows, x: Uuid, j: Uuid, k: Uuid)
    requires Links(rows) && x in rows && j in rows && k in rows
    ensures rows[j].reverses == Some(x) && rows[k].reverses == Some(x) ==> j == k
    ensures rows[j].replacementFor == Some(x) && rows[k].replacementFor == Some(x) ==> j == k
    ensures rows[x].reverses.Some? ==> rows[j].reverses != Some(x) && rows[j].replacementFor != Some(x)
  {
  }
}
