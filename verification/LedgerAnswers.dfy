/**
 What the finance repository answers, told in the fields a caller can look up beforehand: who is let in,
 which category fits which event, and which state a row has to be in. The conditions are written out
 here on their own, apart from the checks the commands share.
 */
module LedgerAnswers {
  import opened Common
  import opened Ledger
  import opened LedgerSafety

  // ---- Who and what ------------------------------------------------------------------------

  /** Finance is switched on and the actor is an active member in the role the context names. */
  predicate LetIn(access: Access, ctx: Context) {
    access.financeEnabled && ctx.membership in access.members && access.members[ctx.membership] == ctx.role
  }

  /** The category exists and has not been deactivated. */
  predicate Usable(categories: Categories, id: Uuid) {
    id in categories && categories[id].active
  }

  /** Income under a category for expenses, an expense under one for income, or another activity's category. */
  predicate Misfits(c: Category, kind: EventKind, activity: Activity) {
    || (kind == ManualIncome && c.applicability == ForExpense)
    || (kind == ManualExpense && c.applicability == ForIncome)
    || (c.activity.Some? && c.activity.value != activity)
  }

  // ---- Creation ----------------------------------------------------------------------------

  /** Each refusal of a creation has exactly its own cause; what is left is stored, or refused by the database. */
  lemma CreateAnswers(l: Ledger, ctx: Context, operationId: Uuid, d: Draft, now: Instant, id: Uuid)
    ensures var (after, r) := CreateEvent(l, ctx, operationId, d, now, id);
            && (r.Err? ==> after == l)
            && (r == Err(NotFound) <==> !LetIn(l.access, ctx) || (ctx.role != Advisor && !Usable(l.categories, d.categoryId)))
            && (r == Err(PermissionDenied) <==> LetIn(l.access, ctx) && ctx.role == Advisor)
            && (r == Err(InvalidCategory) <==>
                LetIn(l.access, ctx) && ctx.role != Advisor && Usable(l.categories, d.categoryId)
                && Misfits(l.categories[d.categoryId], d.kind, d.activity))
            && (r.Ok? || r.error in {NotFound, PermissionDenied, InvalidCategory, IntegrityViolation})
  {
  }

  /** With an acceptable draft, a usable and fitting category and new identifiers, a creation succeeds. */
  lemma CreateSucceedsExactly(l: Ledger, ctx: Context, operationId: Uuid, d: Draft, now: Instant, id: Uuid)
    requires DraftAccepted(d)
    ensures CreateEvent(l, ctx, operationId, d, now, id).1.Ok? <==>
            && LetIn(l.access, ctx) && ctx.role != Advisor
            && Usable(l.categories, d.categoryId) && !Misfits(l.categories[d.categoryId], d.kind, d.activity)
            && id !in l.events && (forall k :: k in l.events ==> l.events[k].operationId != operationId)
  {
    CreateAnswers(l, ctx, operationId, d, now, id);
    if CategoryError(l, ctx, d.categoryId, d.kind, d.activity).None? {
      CreateGoesThrough(l, ctx, operationId, d, now, id);
    }
  }

  // ---- Edits -------------------------------------------------------------------------------

  /** A contributor's own event. */
  predicate Owns(rows: Rows, ctx: Context, eventId: Uuid) {
    eventId in rows && rows[eventId].createdBy == ctx.membership
  }

  /** Undecided, not counted, not put away. */
  predicate Undecided(e: Event) {
    e.approval == Pending && e.posting == NotEffective && e.archivedAt == None
  }

  predicate EditReaches(l: Ledger, ctx: Context, eventId: Uuid, version: int) {
    LetIn(l.access, ctx) && ctx.role == Contributor && Owns(l.events, ctx, eventId) && l.events[eventId].version == version
  }

  /** The category and the activity an event has after an edit. */
  function CategoryAfter(e: Event, c: Changes): Uuid {
    match c.categoryId
    case None => e.categoryId
    case Some(id) => id
  }

  function ActivityAfter(e: Event, c: Changes): Activity {
    match c.activity
    case None => e.activity
    case Some(a) => a
  }

  /** The checks that come before the category's. */
  lemma EditAnswers(l: Ledger, ctx: Context, eventId: Uuid, version: int, c: Changes, now: Instant)
    ensures var (after, r) := UpdatePendingEvent(l, ctx, eventId, version, c, now);
            && (r.Err? ==> after == l)
            && (r == Err(PermissionDenied) <==> LetIn(l.access, ctx) && ctx.role != Contributor)
            && (r == Err(VersionMismatch) <==>
                LetIn(l.access, ctx) && ctx.role == Contributor && Owns(l.events, ctx, eventId) && l.events[eventId].version != version)
            && (r == Err(StateConflict) <==> EditReaches(l, ctx, eventId, version) && !Undecided(l.events[eventId]))
  {
  }

  /** An edit that does not reach an undecided event of the actor's own. */
  lemma EditStopsShort(l: Ledger, ctx: Context, eventId: Uuid, version: int, c: Changes, now: Instant)
    requires !(EditReaches(l, ctx, eventId, version) && Undecided(l.events[eventId]))
    ensures var r := UpdatePendingEvent(l, ctx, eventId, version, c, now).1;
            && r.Err? && r.error != InvalidCategory
            && (r == Err(NotFound) <==> !LetIn(l.access, ctx) || (ctx.role == Contributor && !Owns(l.events, ctx, eventId)))
  {
  }

  /** One that does is answered by the category it leaves the event under. */
  lemma EditIsJudged(l: Ledger, ctx: Context, eventId: Uuid, version: int, c: Changes, now: Instant)
    requires EditReaches(l, ctx, eventId, version) && Undecided(l.events[eventId])
    requires UpdatePendingEvent(l, ctx, eventId, version, c, now).1 != Err(IntegrityViolation)
    ensures var r := UpdatePendingEvent(l, ctx, eventId, version, c, now).1;
            var e := l.events[eventId];
            var id := CategoryAfter(e, c);
            && (r == Err(NotFound) <==> !Usable(l.categories, id))
            && (r == Err(InvalidCategory) <==> Usable(l.categories, id) && Misfits(l.categories[id], e.kind, ActivityAfter(e, c)))
            && (r.Ok? <==> Usable(l.categories, id) && !Misfits(l.categories[id], e.kind, ActivityAfter(e, c)))
  {
  }

  /** What an edit depends on besides: the category it leaves the event under. */
  lemma EditCategoryAnswers(l: Ledger, ctx: Context, eventId: Uuid, version: int, c: Changes, now: Instant)
    requires RowsValid(l.events, l.categories) && LinksPresent(l.events) && ChangesAccepted(c)
    ensures var r := UpdatePendingEvent(l, ctx, eventId, version, c, now).1;
            var reaches := EditReaches(l, ctx, eventId, version) && Undecided(l.events[eventId]);
            && (r == Err(NotFound) <==>
                || !LetIn(l.access, ctx) || (ctx.role == Contributor && !Owns(l.events, ctx, eventId))
                || (reaches && !Usable(l.categories, CategoryAfter(l.events[eventId], c))))
            && (r == Err(InvalidCategory) <==>
                reaches && Usable(l.categories, CategoryAfter(l.events[eventId], c))
                && Misfits(l.categories[CategoryAfter(l.events[eventId], c)], l.events[eventId].kind, ActivityAfter(l.events[eventId], c)))
            && (r.Ok? <==>
                reaches && Usable(l.categories, CategoryAfter(l.events[eventId], c))
                && !Misfits(l.categories[CategoryAfter(l.events[eventId], c)], l.events[eventId].kind, ActivityAfter(l.events[eventId], c)))
  {
    EditGoesThrough(l, ctx, eventId, version, c, now);
    if EditReaches(l, ctx, eventId, version) && Undecided(l.events[eventId]) {
      EditIsJudged(l, ctx, eventId, version, c, now);
    } else {
      EditStopsShort(l, ctx, eventId, version, c, now);
    }
  }

  // ---- Decisions, corrections, archives ----------------------------------------------------

  lemma DecisionAnswers(l: Ledger, ctx: Context, eventId: Uuid, decision: Decision, reason: Reason,
                        explanation: Option<string>, now: Instant)
    requires RowsValid(l.events, l.categories) && LinksPresent(l.events) && (explanation.Some? ==> |explanation.value| <= 512)
    ensures var (after, r) := DecidePendingEvent(l, ctx, eventId, decision, reason, explanation, now);
            var explained := if decision == Approve then explanation.None? else explanation.Some?;
            var admin := LetIn(l.access, ctx) && ctx.role == Admin;
            && (r.Err? ==> after == l)
            && (r == Err(NotFound) <==> !LetIn(l.access, ctx) || (admin && explained && eventId !in l.events))
            && (r == Err(PermissionDenied) <==> LetIn(l.access, ctx) && ctx.role != Admin)
            && (r == Err(InvalidRequest) <==> admin && !explained)
            && (r == Err(StateConflict) <==> admin && explained && eventId in l.events && !Undecided(l.events[eventId]))
            && (r.Ok? <==> admin && explained && eventId in l.events && Undecided(l.events[eventId]))
  {
    DecideGoesThrough(l, ctx, eventId, decision, reason, explanation, now);
  }

  /** Approved, counted, and no reversal itself. */
  predicate Correctable(e: Event) {
    e.approval == Approved && e.posting == Effective && e.reverses == None
  }

  lemma ReversalAnswers(l: Ledger, ctx: Context, a: ReversalArgs, version: int, supply: Supply)
    ensures var (after, r) := ReverseEvent(l, ctx, a, version, supply);
            var admin := LetIn(l.access, ctx) && ctx.role == Admin;
            && (r.Err? ==> after == l)
            && (r == Err(NotFound) <==> !LetIn(l.access, ctx) || (admin && a.eventId !in l.events))
            && (r == Err(PermissionDenied) <==> LetIn(l.access, ctx) && ctx.role != Admin)
            && (r == Err(VersionMismatch) <==> admin && a.eventId in l.events && l.events[a.eventId].version != version)
            && (r == Err(LifecycleConflict) <==>
                admin && a.eventId in l.events && l.events[a.eventId].version == version && !Correctable(l.events[a.eventId]))
            && (r.Ok? || r == Err(IntegrityViolation) <==>
                admin && a.eventId in l.events && l.events[a.eventId].version == version && Correctable(l.events[a.eventId]))
  {
  }

  /** Everything is in place for archiving an event, as far as the repository asks. */
  predicate Archivable(l: Ledger, ctx: Context, eventId: Uuid, version: int) {
    && LetIn(l.access, ctx) && ctx.role == Admin && eventId in l.events && l.events[eventId].version == version
    && l.events[eventId].approval != Pending && l.events[eventId].archivedAt == None
  }

  lemma ArchiveAnswers(l: Ledger, ctx: Context, eventId: Uuid, version: int, reason: Reason, now: Instant)
    ensures var (after, r) := ArchiveEvent(l, ctx, eventId, version, reason, now);
            var admin := LetIn(l.access, ctx) && ctx.role == Admin;
            && (r.Err? ==> after == l)
            && (r == Err(NotFound) <==> !LetIn(l.access, ctx) || (admin && eventId !in l.events))
            && (r == Err(PermissionDenied) <==> LetIn(l.access, ctx) && ctx.role != Admin)
            && (r == Err(VersionMismatch) <==> admin && eventId in l.events && l.events[eventId].version != version)
            && (r == Err(LifecycleConflict) <==>
                admin && eventId in l.events && l.events[eventId].version == version
                && (l.events[eventId].approval == Pending || l.events[eventId].archivedAt != None))
            && (r.Ok? || r == Err(IntegrityViolation) <==> Archivable(l, ctx, eventId, version))
  {
  }

  /** Of what the repository is ready to archive, the database refuses exactly the reversals. */
  lemma ArchiveSucceedsExactly(l: Ledger, ctx: Context, eventId: Uuid, version: int, reason: Reason, now: Instant)
    requires Valid(l)
    ensures ArchiveEvent(l, ctx, eventId, version, reason, now).1.Ok? <==>
              Archivable(l, ctx, eventId, version) && l.events[eventId].reverses == None
  {
    ArchiveAnswers(l, ctx, eventId, version, reason, now);
    if Archivable(l, ctx, eventId, version) {
      ArchiveGoesThrough(l, ctx, eventId, version, reason, now);
    }
  }

  // ---- Reads -------------------------------------------------------------------------------

  /** Without access there is nothing to read or to write, whatever the request says. */
  lemma OutsidersGetNothing(l: Ledger, ctx: Context, eventId: Uuid)
    ensures GetEvent(l, ctx, eventId) == Err(NotFound) <==> !LetIn(l.access, ctx)
    ensures LetIn(l.access, ctx) ==> GetEvent(l, ctx, eventId) == Ok(if eventId in l.events then Some(l.events[eventId]) else None)
  {
  }

  // ---- What the database guards ------------------------------------------------------------

  /** Whoever tries: what an approved event says of its money, date, kind, activity, category and operation never changes. */
  lemma ApprovedFactsAreGuarded(rows: Rows, categories: Categories, e: Event)
    requires e.id in rows && rows[e.id].approval == Approved && Update(rows, categories, e).Some?
    ensures var was := rows[e.id];
            && e.amount == was.amount && e.currency == was.currency && e.direction == was.direction && e.occurredOn == was.occurredOn
            && e.kind == was.kind && e.activity == was.activity && e.categoryId == was.categoryId && e.operationId == was.operationId
  {
  }

  /** Whoever tries: a row that reverses an event goes in only against an approved, effective event of the same money and the other direction. */
  lemma ReversalsAreGuarded(rows: Rows, categories: Categories, e: Event, x: Uuid)
    requires e.reverses == Some(x) && (Insert(rows, categories, e).Some? || Update(rows, categories, e).Some?)
    ensures x in rows && x != e.id
    ensures var t := rows[x];
            && t.approval == Approved && t.posting == Effective && t.reverses == None
            && t.currency == e.currency && t.amount == e.amount && t.direction != e.direction
    ensures forall k :: k in rows && k != e.id && rows[k].reverses == Some(x) ==> !(rows[k].approval == Approved && rows[k].posting == Effective)
  {
  }

  /** Whoever tries: no operation is recorded twice, and no row names a category or an event that is not there. */
  lemma LinksAreGuarded(rows: Rows, categories: Categories, e: Event)
    requires Insert(rows, categories, e).Some? || Update(rows, categories, e).Some?
    ensures forall k :: k in rows && k != e.id ==> rows[k].operationId != e.operationId
    ensures e.categoryId in categories && (e.reverses.Some? ==> e.reverses.value in rows) && (e.replacementFor.Some? ==> e.replacementFor.value in rows)
    ensures Insert(rows, categories, e).Some? ==> e.id !in rows && Insert(rows, categories, e).value == rows[e.id := e]
    ensures Update(rows, categories, e).Some? ==> e.id in rows && Update(rows, categories, e).value == rows[e.id := e]
  {
  }

  /** Whoever tries: an amount is positive and fits the column, and a currency is three capital letters. */
  lemma AmountsAreGuarded(rows: Rows, categories: Categories, e: Event)
    requires Insert(rows, categories, e).Some? || Update(rows, categories, e).Some?
    ensures 0 < e.amount < 1_000_000_000_000_000_000_000_000
    ensures |e.currency| == 3 && 'A' <= e.currency[0] <= 'Z' && 'A' <= e.currency[1] <= 'Z' && 'A' <= e.currency[2] <= 'Z'
  {
  }
}
