/**
 The financial ledger: its rows, the database rules every write must satisfy, and the repository's
 commands as functions of the ledger.

 A command is a function from a ledger to a ledger and a result. Writes go through `Insert` and
 `Update`, which apply the table's CHECK constraints, unique indexes, foreign keys and the history
 guard; a rejected write aborts the whole command.
 */
module Ledger {
  import opened Common
  import MoneyModel

  datatype EventKind = ManualIncome | ManualExpense
  datatype Direction = Inflow | Outflow
  datatype Activity = Household | Farm | Business
  datatype PaymentMethod = Cash | BankTransfer | MobileMoney | Card | Cheque | OtherMethod
  datatype Approval = Pending | Approved | Rejected
  datatype Posting = NotEffective | Effective | Reversed

  datatype Reason =
    | AdminCreated | CorrectionReplacement | ReviewedAndConfirmed
    | Duplicate | EnteredInError | IncorrectAmount | IncorrectCategory | IncorrectDate
    | IncorrectClassification | IncorrectPaymentMethod | InsufficientEvidence | OtherReason

  /** One row of `financial_events`. The amount counts ten-thousandths, as a `NUMERIC(24,4)` column. */
  datatype Event = Event(
    id: Uuid,
    kind: EventKind,
    direction: Direction,
    activity: Activity,
    occurredOn: int,
    categoryId: Uuid,
    amount: int,
    currency: string,
    paymentMethod: PaymentMethod,
    counterparty: Option<string>,
    reference: Option<string>,
    notes: Option<string>,
    approval: Approval,
    posting: Posting,
    reviewedBy: Option<Uuid>,
    reviewedAt: Option<Instant>,
    decisionReason: Option<Reason>,
    decisionExplanation: Option<string>,
    reverses: Option<Uuid>,
    replacementFor: Option<Uuid>,
    operationId: Uuid,
    createdBy: Uuid,
    updatedBy: Uuid,
    createdAt: Instant,
    updatedAt: Instant,
    archivedAt: Option<Instant>,
    archivedBy: Option<Uuid>,
    archiveReason: Option<Reason>,
    version: int)

  type Rows = map<Uuid, Event>

  datatype Applicability = ForIncome | ForExpense | ForBoth
  datatype Category = Category(applicability: Applicability, activity: Option<Activity>, active: bool)
  type Categories = map<Uuid, Category>

  /** Who holds an active membership of an active account, with which role, and whether the finance
      module is switched on. */
  datatype Access = Access(members: map<Uuid, Role>, financeEnabled: bool)

  datatype Context = Context(membership: Uuid, role: Role)

  datatype Ledger = Ledger(events: Rows, categories: Categories, access: Access)

  datatype Error =
    | NotFound
    | PermissionDenied
    | VersionMismatch
    | StateConflict
    | LifecycleConflict
    | InvalidCategory
    | InvalidRequest
    | IntegrityViolation
    | KeyReused
    | CommandInProgress
    | RecoveryRequired
    | ReplayUnavailable
    | LeaseConflict

  // ---- Database rules ----------------------------------------------------------------------

  predicate LengthWithin(t: Option<string>, maximum: nat) {
    t.Some? ==> 1 <= |t.value| <= maximum
  }

  function DirectionOf(kind: EventKind): Direction {
    if kind == ManualIncome then Inflow else Outflow
  }

  predicate DecisionEvidence(e: Event) {
    match e.approval
    case Pending => e.reviewedBy.None? && e.reviewedAt.None? && e.decisionReason.None? && e.decisionExplanation.None?
    case Approved => e.reviewedBy.Some? && e.reviewedAt.Some? && e.decisionReason.Some? && e.decisionExplanation.None?
    case Rejected => e.reviewedBy.Some? && e.reviewedAt.Some? && e.decisionReason.Some? && e.decisionExplanation.Some?
  }

  /** The CHECK constraints and column limits of the table. */
  predicate Checks(e: Event) {
    && e.direction == DirectionOf(e.kind)
    && 0 < e.amount < MoneyModel.AMOUNT_LIMIT
    && MoneyModel.CurrencyShaped(e.currency)
    && LengthWithin(e.counterparty, 256) && LengthWithin(e.reference, 128) && LengthWithin(e.notes, 2000)
    && (e.approval == Approved <==> e.posting != NotEffective)
    && DecisionEvidence(e)
    && (e.decisionExplanation.Some? ==> |e.decisionExplanation.value| <= 512)
    && e.reverses != Some(e.id) && e.replacementFor != Some(e.id)
    && (e.reverses.Some? ==> e.approval == Approved && e.posting == Effective)
    && (e.archivedAt.Some? <==> e.archivedBy.Some?) && (e.archivedAt.Some? <==> e.archiveReason.Some?)
    && e.version > 0
  }

  predicate EffectiveReversal(e: Event) {
    e.reverses.Some? && e.approval == Approved && e.posting == Effective
  }

  /** The unique operation constraint and the partial unique index on effective reversals. */
  predicate Unique(rows: Rows, e: Event) {
    forall k :: k in rows && k != e.id ==>
      && rows[k].operationId != e.operationId
      && (EffectiveReversal(e) && EffectiveReversal(rows[k]) ==> rows[k].reverses != e.reverses)
  }

  predicate ForeignKeys(rows: Rows, categories: Categories, e: Event) {
    && e.categoryId in categories
    && (e.reverses.Some? ==> e.reverses.value in rows)
    && (e.replacementFor.Some? ==> e.replacementFor.value in rows)
  }

  /** The guard's rule for rows that name a reversed event, on insert and on every later update. */
  predicate GuardAcceptsReversal(rows: Rows, e: Event) {
    e.reverses.Some? ==>
      && e.reverses.value in rows
      && var target := rows[e.reverses.value];
         && target.approval == Approved && target.posting == Effective && target.reverses.None?
         && target.currency == e.currency && target.amount == e.amount && target.direction != e.direction
  }

  /** The guard's rule that the facts of an approved event never change. */
  predicate ApprovedFactsKept(before: Event, after: Event) {
    before.approval == Approved ==>
      && after.amount == before.amount && after.currency == before.currency && after.direction == before.direction
      && after.occurredOn == before.occurredOn && after.kind == before.kind && after.activity == before.activity
      && after.categoryId == before.categoryId && after.operationId == before.operationId
  }

  predicate InsertAccepted(rows: Rows, categories: Categories, e: Event) {
    && e.id !in rows && GuardAcceptsReversal(rows, e)
    && Checks(e) && Unique(rows, e) && ForeignKeys(rows, categories, e)
  }

  predicate UpdateAccepted(rows: Rows, categories: Categories, e: Event) {
    && e.id in rows && ApprovedFactsKept(rows[e.id], e) && GuardAcceptsReversal(rows, e)
    && Checks(e) && Unique(rows, e) && ForeignKeys(rows, categories, e)
  }

  function Insert(rows: Rows, categories: Categories, e: Event): Option<Rows> {
    if InsertAccepted(rows, categories, e) then Some(rows[e.id := e]) else None
  }

  function Update(rows: Rows, categories: Categories, e: Event): Option<Rows> {
    if UpdateAccepted(rows, categories, e) then Some(rows[e.id := e]) else None
  }

  // ---- Access ------------------------------------------------------------------------------

  /** The actor still is who the context says. */
  predicate MemberValid(access: Access, ctx: Context) {
    ctx.membership in access.members && access.members[ctx.membership] == ctx.role
  }

  predicate FinanceValid(access: Access, ctx: Context) {
    MemberValid(access, ctx) && access.financeEnabled
  }

  predicate MaySubmit(role: Role) {
    role != Advisor
  }

  // ---- Commands ----------------------------------------------------------------------------

  /** A manual event as the services hand it to the repository. */
  datatype Draft = Draft(
    kind: EventKind,
    activity: Activity,
    occurredOn: int,
    categoryId: Uuid,
    amount: int,
    currency: string,
    paymentMethod: PaymentMethod,
    counterparty: Option<string>,
    reference: Option<string>,
    notes: Option<string>)

  predicate Covers(c: Category, kind: EventKind, activity: Activity) {
    && c.applicability in [if kind == ManualIncome then ForIncome else ForExpense, ForBoth]
    && (c.activity.Some? ==> c.activity.value == activity)
  }

  /** The error category validation raises, if any. */
  function CategoryError(l: Ledger, ctx: Context, categoryId: Uuid, kind: EventKind, activity: Activity): Option<Error> {
    if !FinanceValid(l.access, ctx) then Some(NotFound)
    else if !MaySubmit(ctx.role) then Some(PermissionDenied)
    else if categoryId !in l.categories || !l.categories[categoryId].active then Some(NotFound)
    else if !Covers(l.categories[categoryId], kind, activity) then Some(InvalidCategory)
    else None
  }

  function NewEvent(ctx: Context, operationId: Uuid, d: Draft, now: Instant, id: Uuid): Event {
    var byAdmin := ctx.role == Admin;
    Event(id, d.kind, DirectionOf(d.kind), d.activity, d.occurredOn, d.categoryId, d.amount, d.currency, d.paymentMethod,
          d.counterparty, d.reference, d.notes,
          if byAdmin then Approved else Pending, if byAdmin then Effective else NotEffective,
          if byAdmin then Some(ctx.membership) else None, if byAdmin then Some(now) else None,
          if byAdmin then Some(AdminCreated) else None, None, None, None,
          operationId, ctx.membership, ctx.membership, now, now, None, None, None, 1)
  }

  function CreateEvent(l: Ledger, ctx: Context, operationId: Uuid, d: Draft, now: Instant, id: Uuid): (Ledger, Result<Event, Error>) {
    match CategoryError(l, ctx, d.categoryId, d.kind, d.activity)
    case Some(e) => (l, Err(e))
    case None =>
      var event := NewEvent(ctx, operationId, d, now, id);
      match Insert(l.events, l.categories, event)
      case None => (l, Err(IntegrityViolation))
      case Some(rows) => (l.(events := rows), Ok(event))
  }

  /** The fields a pending edit carries; None leaves a field alone. An optional text can be cleared. */
  datatype Changes = Changes(
    activity: Option<Activity>,
    occurredOn: Option<int>,
    categoryId: Option<Uuid>,
    money: Option<(int, string)>,
    paymentMethod: Option<PaymentMethod>,
    counterparty: Option<Option<string>>,
    reference: Option<Option<string>>,
    notes: Option<Option<string>>)

  function OrElse<T>(change: Option<T>, current: T): T {
    if change.Some? then change.value else current
  }

  predicate Editable(e: Event) {
    e.approval == Pending && e.posting == NotEffective && e.archivedAt.None?
  }

  function Edited(e: Event, c: Changes, ctx: Context, now: Instant): Event {
    e.(activity := OrElse(c.activity, e.activity),
       occurredOn := OrElse(c.occurredOn, e.occurredOn),
       categoryId := OrElse(c.categoryId, e.categoryId),
       amount := if c.money.Some? then c.money.value.0 else e.amount,
       currency := if c.money.Some? then c.money.value.1 else e.currency,
       paymentMethod := OrElse(c.paymentMethod, e.paymentMethod),
       counterparty := OrElse(c.counterparty, e.counterparty),
       reference := OrElse(c.reference, e.reference),
       notes := OrElse(c.notes, e.notes),
       updatedBy := ctx.membership, updatedAt := now, version := e.version + 1)
  }

  function UpdatePendingEvent(l: Ledger, ctx: Context, eventId: Uuid, expectedVersion: int, c: Changes, now: Instant): (Ledger, Result<Event, Error>) {
    if !FinanceValid(l.access, ctx) then (l, Err(NotFound))
    else if ctx.role != Contributor then (l, Err(PermissionDenied))
    else if eventId !in l.events || l.events[eventId].createdBy != ctx.membership then (l, Err(NotFound))
    else
      var e := l.events[eventId];
      if e.version != expectedVersion then (l, Err(VersionMismatch))
      else if !Editable(e) then (l, Err(StateConflict))
      else
        var edited := Edited(e, c, ctx, now);
        if edited.categoryId !in l.categories || !l.categories[edited.categoryId].active then (l, Err(NotFound))
        else if !Covers(l.categories[edited.categoryId], e.kind, edited.activity) then (l, Err(InvalidCategory))
        else match Update(l.events, l.categories, edited)
          case None => (l, Err(IntegrityViolation))
          case Some(rows) => (l.(events := rows), Ok(edited))
  }

  datatype Decision = Approve | Reject

  function Decided(e: Event, decision: Decision, reason: Reason, explanation: Option<string>, ctx: Context,
                   now: Instant): Event {
    e.(approval := if decision == Approve then Approved else Rejected,
       posting := if decision == Approve then Effective else NotEffective,
       reviewedBy := Some(ctx.membership), reviewedAt := Some(now),
       decisionReason := Some(reason), decisionExplanation := explanation,
       updatedBy := ctx.membership, updatedAt := now, version := e.version + 1)
  }

  function DecidePendingEvent(l: Ledger, ctx: Context, eventId: Uuid, decision: Decision, reason: Reason,
                              explanation: Option<string>, now: Instant): (Ledger, Result<Event, Error>) {
    if !FinanceValid(l.access, ctx) then (l, Err(NotFound))
    else if ctx.role != Admin then (l, Err(PermissionDenied))
    else if (decision == Approve) != explanation.None? then (l, Err(InvalidRequest))
    else if eventId !in l.events then (l, Err(NotFound))
    else if !Editable(l.events[eventId]) then (l, Err(StateConflict))
    else
      var decided := Decided(l.events[eventId], decision, reason, explanation, ctx, now);
      match Update(l.events, l.categories, decided)
      case None => (l, Err(IntegrityViolation))
      case Some(rows) => (l.(events := rows), Ok(decided))
  }

  /** What a reversal returns, and what replaying one finds again. */
  datatype Lifecycle = Lifecycle(original: Event, reversal: Option<Event>, replacement: Option<Event>)

  function Opposite(d: Direction): Direction {
    if d == Inflow then Outflow else Inflow
  }

  function ReversalOf(original: Event, ctx: Context, operationId: Uuid, occurredOn: int, reason: Reason, now: Instant,
                      id: Uuid): Event {
    Event(id, if original.direction == Inflow then ManualExpense else ManualIncome, Opposite(original.direction),
          original.activity, occurredOn, original.categoryId, original.amount, original.currency, original.paymentMethod,
          original.counterparty, original.reference, original.notes,
          Approved, Effective, Some(ctx.membership), Some(now), Some(reason), None, Some(original.id), None,
          operationId, ctx.membership, ctx.membership, now, now, None, None, None, 1)
  }

  function ReplacementOf(original: Event, d: Draft, ctx: Context, operationId: Uuid, now: Instant, id: Uuid): Event {
    Event(id, d.kind, DirectionOf(d.kind), d.activity, d.occurredOn, d.categoryId, d.amount, d.currency, d.paymentMethod,
          d.counterparty, d.reference, d.notes,
          Approved, Effective, Some(ctx.membership), Some(now), Some(CorrectionReplacement), None, None, Some(original.id),
          operationId, ctx.membership, ctx.membership, now, now, None, None, None, 1)
  }

  function Flipped(original: Event, ctx: Context, now: Instant): Event {
    original.(posting := Reversed, updatedBy := ctx.membership, updatedAt := now, version := original.version + 1)
  }

  predicate Reversible(e: Event) {
    e.approval == Approved && e.posting == Effective && e.reverses.None?
  }

  /** The identifiers and texts a reversal command brings with it. The replacement's operation id is
      derived from the command's own by the source's name-based identifier function. */
  datatype ReversalArgs = ReversalArgs(
    eventId: Uuid,
    operationId: Uuid,
    derivedOperationId: Uuid,
    occurredOn: int,
    reason: Reason,
    replacement: Option<Draft>)

  /** The identifiers and the clock reading the database session hands to one request. */
  datatype Supply = Supply(eventId: Uuid, secondEventId: Uuid, recordId: Uuid, leaseToken: Uuid, now: Instant)

  /** The first flush: the reversal, and the replacement if there is one, while the original is still effective. */
  function FirstFlush(rows: Rows, categories: Categories, reversal: Event, replacement: Option<Event>): Option<Rows> {
    match Insert(rows, categories, reversal)
    case None => None
    case Some(r) => if replacement.None? then Some(r) else Insert(r, categories, replacement.value)
  }

  /** The second flush, which marks the original reversed. */
  function BothFlushes(rows: Rows, categories: Categories, flipped: Event, reversal: Event, replacement: Option<Event>): Option<Rows> {
    match FirstFlush(rows, categories, reversal, replacement)
    case None => None
    case Some(r) => Update(r, categories, flipped)
  }

  function PlannedReversal(original: Event, ctx: Context, a: ReversalArgs, supply: Supply): (Event, Option<Event>, Event) {
    (ReversalOf(original, ctx, a.operationId, a.occurredOn, a.reason, supply.now, supply.eventId),
     if a.replacement.None? then None
     else Some(ReplacementOf(original, a.replacement.value, ctx, a.derivedOperationId, supply.now, supply.secondEventId)),
     Flipped(original, ctx, supply.now))
  }

  function ReverseEvent(l: Ledger, ctx: Context, a: ReversalArgs, expectedVersion: int, supply: Supply): (Ledger, Result<Lifecycle, Error>) {
    if !FinanceValid(l.access, ctx) then (l, Err(NotFound))
    else if ctx.role != Admin then (l, Err(PermissionDenied))
    else if a.eventId !in l.events then (l, Err(NotFound))
    else
      var original := l.events[a.eventId];
      if original.version != expectedVersion then (l, Err(VersionMismatch))
      else if !Reversible(original) then (l, Err(LifecycleConflict))
      else
        var (reversal, replacement, flipped) := PlannedReversal(original, ctx, a, supply);
        match BothFlushes(l.events, l.categories, flipped, reversal, replacement)
        case None => (l, Err(IntegrityViolation))
        case Some(rows) => (l.(events := rows), Ok(Lifecycle(flipped, Some(reversal), replacement)))
  }

  function Archived(e: Event, reason: Reason, ctx: Context, now: Instant): Event {
    e.(archivedAt := Some(now), archivedBy := Some(ctx.membership), archiveReason := Some(reason),
       updatedBy := ctx.membership, updatedAt := now, version := e.version + 1)
  }

  function ArchiveEvent(l: Ledger, ctx: Context, eventId: Uuid, expectedVersion: int, reason: Reason, now: Instant): (Ledger, Result<Event, Error>) {
    if !FinanceValid(l.access, ctx) then (l, Err(NotFound))
    else if ctx.role != Admin then (l, Err(PermissionDenied))
    else if eventId !in l.events then (l, Err(NotFound))
    else
      var e := l.events[eventId];
      if e.version != expectedVersion then (l, Err(VersionMismatch))
      else if e.approval == Pending || e.archivedAt.Some? then (l, Err(LifecycleConflict))
      else
        var archived := Archived(e, reason, ctx, now);
        match Update(l.events, l.categories, archived)
        case None => (l, Err(IntegrityViolation))
        case Some(rows) => (l.(events := rows), Ok(archived))
  }

  // ---- Reads -------------------------------------------------------------------------------

  function GetEvent(l: Ledger, ctx: Context, eventId: Uuid): Result<Option<Event>, Error> {
    if !FinanceValid(l.access, ctx) then Err(NotFound)
    else if eventId in l.events then Ok(Some(l.events[eventId])) else Ok(None)
  }

  ghost predicate IsReversalOf(rows: Rows, r: Uuid, eventId: Uuid) {
    r in rows && rows[r].reverses == Some(eventId) && rows[r].approval == Approved && rows[r].posting == Effective
  }

  ghost predicate IsReplacementOf(rows: Rows, y: Uuid, eventId: Uuid) {
    y in rows && rows[y].replacementFor == Some(eventId)
  }

  /** What the lifecycle query may answer: the linked rows, or none when no row is linked. */
  ghost predicate IsLifecycleResult(rows: Rows, eventId: Uuid, found: Lifecycle) {
    && eventId in rows && found.original == rows[eventId]
    && (match found.reversal
        case None => forall r :: !IsReversalOf(rows, r, eventId)
        case Some(e) => IsReversalOf(rows, e.id, eventId) && rows[e.id] == e)
    && (match found.replacement
        case None => forall y :: !IsReplacementOf(rows, y, eventId)
        case Some(e) => IsReplacementOf(rows, e.id, eventId) && rows[e.id] == e)
  }
}
