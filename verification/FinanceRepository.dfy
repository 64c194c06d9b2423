/**
 The finance repository as the program runs it: it assigns fields of the rows it has locked, adds rows
 and flushes them in order. Each method does exactly what the function of the same name in `Ledger` says.
 */
module FinanceRepository {
  import opened Common
  import L = Ledger
  import opened Ledger
  import LedgerSafety
  import LedgerHistory
  import opened LedgerAnswers

  class Repository {
    var events: Rows
    var categories: Categories
    var access: Access

    constructor ()
      ensures State() == L.Ledger.Ledger(map[], map[], Access(map[], false))
    {
      events, categories, access := map[], map[], Access(map[], false);
    }

    ghost function State(): Ledger
      reads this
    {
      L.Ledger.Ledger(events, categories, access)
    }

    /** Sends one new row to the database; a refusal leaves the transaction's writes as they are. */
    method FlushNew(e: Event) returns (accepted: bool)
      modifies `events
      ensures Some(events) == (if accepted then Insert(old(events), categories, e) else Some(old(events)))
      ensures accepted == Insert(old(events), categories, e).Some?
    {
      accepted := InsertAccepted(events, categories, e);
      if accepted {
        events := events[e.id := e];
      }
    }

    method FlushChanged(e: Event) returns (accepted: bool)
      modifies `events
      ensures Some(events) == (if accepted then Update(old(events), categories, e) else Some(old(events)))
      ensures accepted == Update(old(events), categories, e).Some?
    {
      accepted := UpdateAccepted(events, categories, e);
      if accepted {
        events := events[e.id := e];
      }
    }

    method ValidateEventCategory(ctx: Context, categoryId: Uuid, kind: EventKind, activity: Activity)
      returns (error: Option<Error>)
      ensures error == CategoryError(State(), ctx, categoryId, kind, activity)
      ensures error == if !LetIn(access, ctx) then Some(NotFound)
                       else if ctx.role == Advisor then Some(PermissionDenied)
                       else if !Usable(categories, categoryId) then Some(NotFound)
                       else if Misfits(categories[categoryId], kind, activity) then Some(InvalidCategory) else None
    {
      if !FinanceValid(access, ctx) {
        return Some(NotFound);
      }
      if !MaySubmit(ctx.role) {
        return Some(PermissionDenied);
      }
      if categoryId !in categories || !categories[categoryId].active {
        return Some(NotFound);
      }
      var category := categories[categoryId];
      var expected := if kind == ManualIncome then ForIncome else ForExpense;
      if category.applicability != expected && category.applicability != ForBoth {
        return Some(InvalidCategory);
      }
      if category.activity.Some? && category.activity.value != activity {
        return Some(InvalidCategory);
      }
      error := None;
    }

    method CreateEvent(ctx: Context, operationId: Uuid, d: Draft, now: Instant, id: Uuid)
      returns (r: Result<Event, Error>)
      modifies `events
      ensures (State(), r) == L.CreateEvent(old(State()), ctx, operationId, d, now, id)
    {
      var error := ValidateEventCategory(ctx, d.categoryId, d.kind, d.activity);
      if error.Some? {
        return Err(error.value);
      }
      var event := NewEvent(ctx, operationId, d, now, id);
      var accepted := FlushNew(event);
      r := if accepted then Ok(event) else Err(IntegrityViolation);
    }

    method UpdatePendingEvent(ctx: Context, eventId: Uuid, expectedVersion: int, c: Changes, now: Instant)
      returns (r: Result<Event, Error>)
      modifies `events
      ensures (State(), r) == L.UpdatePendingEvent(old(State()), ctx, eventId, expectedVersion, c, now)
    {
      if !FinanceValid(access, ctx) {
        return Err(NotFound);
      }
      if ctx.role != Contributor {
        return Err(PermissionDenied);
      }
      if eventId !in events || events[eventId].createdBy != ctx.membership {
        return Err(NotFound);
      }
      var event := events[eventId];
      if event.version != expectedVersion {
        return Err(VersionMismatch);
      }
      if event.approval != Pending || event.posting != NotEffective || event.archivedAt.Some? {
        return Err(StateConflict);
      }
      var activity := if c.activity.Some? then c.activity.value else event.activity;
      var categoryId := if c.categoryId.Some? then c.categoryId.value else event.categoryId;
      if categoryId !in categories || !categories[categoryId].active {
        return Err(NotFound);
      }
      if !Covers(categories[categoryId], event.kind, activity) {
        return Err(InvalidCategory);
      }
      event := AssignFacts(event, c, activity, categoryId);
      event := AssignTexts(event, c);
      event := event.(updatedBy := ctx.membership, updatedAt := now, version := event.version + 1);
      assert event == Edited(events[eventId], c, ctx, now);
      var accepted := FlushChanged(event);
      r := if accepted then Ok(event) else Err(IntegrityViolation);
    }

    method AssignFacts(e: Event, c: Changes, activity: Activity, categoryId: Uuid) returns (event: Event)
      requires activity == OrElse(c.activity, e.activity) && categoryId == OrElse(c.categoryId, e.categoryId)
      ensures event == e.(activity := activity, occurredOn := OrElse(c.occurredOn, e.occurredOn), categoryId := categoryId,
                          amount := if c.money.Some? then c.money.value.0 else e.amount,
                          currency := if c.money.Some? then c.money.value.1 else e.currency)
    {
      event := e;
      if c.activity.Some? {
        event := event.(activity := activity);
      }
      if c.occurredOn.Some? {
        event := event.(occurredOn := c.occurredOn.value);
      }
      if c.categoryId.Some? {
        event := event.(categoryId := categoryId);
      }
      if c.money.Some? {
        event := event.(amount := c.money.value.0);
        event := event.(currency := c.money.value.1);
      }
    }

    method AssignTexts(e: Event, c: Changes) returns (event: Event)
      ensures event == e.(paymentMethod := OrElse(c.paymentMethod, e.paymentMethod), counterparty := OrElse(c.counterparty, e.counterparty),
                          reference := OrElse(c.reference, e.reference), notes := OrElse(c.notes, e.notes))
    {
      event := e;
      if c.paymentMethod.Some? {
        event := event.(paymentMethod := c.paymentMethod.value);
      }
      if c.counterparty.Some? {
        event := event.(counterparty := c.counterparty.value);
      }
      if c.reference.Some? {
        event := event.(reference := c.reference.value);
      }
      if c.notes.Some? {
        event := event.(notes := c.notes.value);
      }
    }

    method DecidePendingEvent(ctx: Context, eventId: Uuid, decision: Decision, reason: Reason,
                              explanation: Option<string>, now: Instant) returns (r: Result<Event, Error>)
      modifies `events
      ensures (State(), r) == L.DecidePendingEvent(old(State()), ctx, eventId, decision, reason, explanation, now)
    {
      if !FinanceValid(access, ctx) {
        return Err(NotFound);
      }
      if ctx.role != Admin {
        return Err(PermissionDenied);
      }
      if (decision == Approve) != explanation.None? {
        return Err(InvalidRequest);
      }
      if eventId !in events {
        return Err(NotFound);
      }
      var event := events[eventId];
      if event.approval != Pending || event.posting != NotEffective || event.archivedAt.Some? {
        return Err(StateConflict);
      }
      event := event.(approval := if decision == Approve then Approved else Rejected);
      event := event.(posting := if decision == Approve then Effective else NotEffective);
      event := event.(reviewedBy := Some(ctx.membership), reviewedAt := Some(now));
      event := event.(decisionReason := Some(reason), decisionExplanation := explanation);
      event := event.(updatedBy := ctx.membership, updatedAt := now, version := event.version + 1);
      var accepted := FlushChanged(event);
      r := if accepted then Ok(event) else Err(IntegrityViolation);
    }

    /** The new rows go in while the original is still effective; only then is the original flipped. */
    method ReverseEvent(ctx: Context, a: ReversalArgs, expectedVersion: int, supply: Supply)
      returns (r: Result<Lifecycle, Error>)
      modifies `events
      ensures (State(), r) == L.ReverseEvent(old(State()), ctx, a, expectedVersion, supply)
    {
      if !FinanceValid(access, ctx) {
        return Err(NotFound);
      }
      if ctx.role != Admin {
        return Err(PermissionDenied);
      }
      if a.eventId !in events {
        return Err(NotFound);
      }
      var original := events[a.eventId];
      if original.version != expectedVersion {
        return Err(VersionMismatch);
      }
      if original.approval != Approved || original.posting != Effective || original.reverses.Some? {
        return Err(LifecycleConflict);
      }
      var before := events;
      var reversal := ReversalOf(original, ctx, a.operationId, a.occurredOn, a.reason, supply.now, supply.eventId);
      var replacement: Option<Event> := None;
      var accepted := FlushNew(reversal);
      if a.replacement.Some? {
        replacement := Some(ReplacementOf(original, a.replacement.value, ctx, a.derivedOperationId, supply.now, supply.secondEventId));
        if accepted {
          accepted := FlushNew(replacement.value);
        }
      }
      if accepted {
        original := original.(posting := Reversed);
        original := original.(updatedBy := ctx.membership, updatedAt := supply.now);
        original := original.(version := original.version + 1);
        accepted := FlushChanged(original);
      }
      if !accepted {
        events := before;
        return Err(IntegrityViolation);
      }
      r := Ok(Lifecycle(original, Some(reversal), replacement));
    }

    method ArchiveEvent(ctx: Context, eventId: Uuid, expectedVersion: int, reason: Reason, now: Instant)
      returns (r: Result<Event, Error>)
      modifies `events
      ensures (State(), r) == L.ArchiveEvent(old(State()), ctx, eventId, expectedVersion, reason, now)
    {
      if !FinanceValid(access, ctx) {
        return Err(NotFound);
      }
      if ctx.role != Admin {
        return Err(PermissionDenied);
      }
      if eventId !in events {
        return Err(NotFound);
      }
      var event := events[eventId];
      if event.version != expectedVersion {
        return Err(VersionMismatch);
      }
      if event.approval == Pending || event.archivedAt.Some? {
        return Err(LifecycleConflict);
      }
      event := event.(archivedAt := Some(now), archivedBy := Some(ctx.membership), archiveReason := Some(reason));
      event := event.(updatedBy := ctx.membership, updatedAt := now, version := event.version + 1);
      var accepted := FlushChanged(event);
      r := if accepted then Ok(event) else Err(IntegrityViolation);
    }

    /** The query for the rows linked to an event. */
    method FindReversal(eventId: Uuid) returns (found: Option<Event>)
      requires LedgerSafety.WellKeyed(events)
      ensures match found
              case None => forall r :: !IsReversalOf(events, r, eventId)
              case Some(e) => IsReversalOf(events, e.id, eventId) && events[e.id] == e
    {
      var todo := events.Keys;
      while todo != {}
        invariant todo <= events.Keys
        invariant forall k :: k in events && k !in todo ==> !IsReversalOf(events, k, eventId)
      {
        var k :| k in todo;
        var e := events[k];
        if e.reverses == Some(eventId) && e.approval == Approved && e.posting == Effective {
          return Some(e);
        }
        todo := todo - {k};
      }
      found := None;
    }

    method FindReplacement(eventId: Uuid) returns (found: Option<Event>)
      requires LedgerSafety.WellKeyed(events)
      ensures match found
              case None => forall y :: !IsReplacementOf(events, y, eventId)
              case Some(e) => IsReplacementOf(events, e.id, eventId) && events[e.id] == e
    {
      var todo := events.Keys;
      while todo != {}
        invariant todo <= events.Keys
        invariant forall k :: k in events && k !in todo ==> !IsReplacementOf(events, k, eventId)
      {
        var k :| k in todo;
        var e := events[k];
        if e.replacementFor == Some(eventId) {
          return Some(e);
        }
        todo := todo - {k};
      }
      found := None;
    }

    method GetLifecycleResult(ctx: Context, eventId: Uuid) returns (r: Result<Option<Lifecycle>, Error>)
      requires LedgerSafety.Valid(State())
      ensures r == if !FinanceValid(access, ctx) then Err(NotFound)
                   else if eventId !in events then Ok(None)
                   else Ok(Some(LedgerHistory.LifecycleOf(events, eventId)))
    {
      if !FinanceValid(access, ctx) {
        return Err(NotFound);
      }
      if eventId !in events {
        return Ok(None);
      }
      var reversal := FindReversal(eventId);
      var replacement := FindReplacement(eventId);
      var found := Lifecycle(events[eventId], reversal, replacement);
      LedgerHistory.LifecycleOfIsResult(events, eventId);
      LedgerHistory.LifecycleIsUnique(events, eventId, found, LedgerHistory.LifecycleOf(events, eventId));
      r := Ok(Some(found));
    }
  }
}
