/**
 The finance commands end to end: what a request asks for, the checks before its claim, its single
 execution under the claim, its replays, and what the request's transaction commits.
 */
module Commands {
  import opened Common
  import opened Ledger
  import opened Idempotency
  import MoneyModel
  import opened LedgerHistory

  // ---- Requests ----------------------------------------------------------------------------

  /** A manual event as submitted: money is still text. */
  datatype Manual = Manual(
    kind: EventKind,
    activity: Activity,
    occurredOn: int,
    categoryId: Uuid,
    amount: string,
    currencyCode: string,
    paymentMethod: PaymentMethod,
    counterparty: Option<string>,
    reference: Option<string>,
    notes: Option<string>)

  datatype Command =
    | CreateManual(manual: Manual)
    | Decide(eventId: Uuid, decision: Decision, decisionReason: Reason, explanation: Option<string>)
    | Reverse(eventId: Uuid, occurredOn: int, reason: Reason, confirmed: bool)
    | Correct(eventId: Uuid, occurredOn: int, reason: Reason, confirmed: bool, replacement: Option<Manual>)
    | Archive(eventId: Uuid, reason: Reason, confirmed: bool)

  /**
   One request. The version comes from a header and is no part of the fingerprint; the derived
   operation id is the name-based identifier of the operation id and the word `replacement`.
   */
  datatype Request = Request(
    ctx: Context,
    command: Command,
    operationId: Uuid,
    derivedOperationId: Uuid,
    keyDigest: nat,
    fingerprint: nat,
    expectedVersion: int)

  function OperationOf(c: Command): Operation {
    match c
    case CreateManual(_) => CreateOperation
    case Decide(_, decision, _, _) => if decision == Approve then ApproveOperation else RejectOperation
    case Reverse(_, _, _, _) => ReverseOperation
    case Correct(_, _, _, _, _) => CorrectOperation
    case Archive(_, _, _) => ArchiveOperation
  }

  function MetadataOf(r: Request): Metadata {
    Metadata(r.operationId, OperationOf(r.command), r.keyDigest, r.fingerprint)
  }

  // ---- Checks before the claim -------------------------------------------------------------

  predicate HasControlCharacter(text: string) {
    exists i :: 0 <= i < |text| && (text[i] < ' ' || text[i] == 127 as char)
  }

  predicate AcceptableText(value: Option<string>, maximum: nat) {
    value.Some? ==> 1 <= |value.value| <= maximum && !HasControlCharacter(value.value)
  }

  predicate AcceptableTexts(m: Manual) {
    AcceptableText(m.counterparty, 256) && AcceptableText(m.reference, 128) && AcceptableText(m.notes, 2000)
  }

  function DraftOf(m: Manual, units: int, code: string): Draft {
    Draft(m.kind, m.activity, m.occurredOn, m.categoryId, units, code, m.paymentMethod, m.counterparty, m.reference, m.notes)
  }

  function PrepareManual(l: Ledger, ctx: Context, m: Manual): Result<Draft, Error> {
    match MoneyModel.Submitted(m.amount, m.currencyCode)
    case Err(_) => Err(InvalidRequest)
    case Ok(money) =>
      if !AcceptableTexts(m) then Err(InvalidRequest)
      else match CategoryError(l, ctx, m.categoryId, m.kind, m.activity)
        case Some(e) => Err(e)
        case None => Ok(DraftOf(m, money.0, money.1))
  }

  /** A replacement's category is looked at before its texts. */
  function PrepareReplacement(l: Ledger, ctx: Context, m: Manual): Result<Draft, Error> {
    match MoneyModel.Submitted(m.amount, m.currencyCode)
    case Err(_) => Err(InvalidRequest)
    case Ok(money) =>
      match CategoryError(l, ctx, m.categoryId, m.kind, m.activity)
      case Some(e) => Err(e)
      case None => if !AcceptableTexts(m) then Err(InvalidRequest) else Ok(DraftOf(m, money.0, money.1))
  }

  /** What is left to do once a request has passed the checks before its claim. */
  datatype Action =
    | CreateAction(draft: Draft)
    | DecideAction(eventId: Uuid, decision: Decision, reason: Reason, explanation: Option<string>)
    | ReverseAction(args: ReversalArgs)
    | ArchiveAction(eventId: Uuid, reason: Reason)

  predicate DecisionWellFormed(decision: Decision, reason: Reason, explanation: Option<string>) {
    if decision == Approve then reason == ReviewedAndConfirmed && explanation.None?
    else
      && reason in {Duplicate, IncorrectAmount, IncorrectCategory, IncorrectDate, InsufficientEvidence, OtherReason}
      && explanation.Some? && AcceptableText(explanation, 512)
  }

  function Admit(l: Ledger, r: Request): Result<Action, Error> {
    match r.command
    case CreateManual(m) =>
      if !MaySubmit(r.ctx.role) then Err(PermissionDenied)
      else (match PrepareManual(l, r.ctx, m)
            case Err(e) => Err(e)
            case Ok(draft) => Ok(CreateAction(draft)))
    case Decide(eventId, decision, reason, explanation) =>
      if r.ctx.role != Admin then Err(PermissionDenied)
      else if !DecisionWellFormed(decision, reason, explanation) then Err(InvalidRequest)
      else Ok(DecideAction(eventId, decision, reason, explanation))
    case Reverse(eventId, occurredOn, reason, confirmed) =>
      if r.ctx.role != Admin then Err(PermissionDenied)
      else if !confirmed then Err(InvalidRequest)
      else Ok(ReverseAction(ReversalArgs(eventId, r.operationId, r.derivedOperationId, occurredOn, reason, None)))
    case Correct(eventId, occurredOn, reason, confirmed, replacement) =>
      if r.ctx.role != Admin then Err(PermissionDenied)
      else if !confirmed then Err(InvalidRequest)
      else if replacement.None? then
        Ok(ReverseAction(ReversalArgs(eventId, r.operationId, r.derivedOperationId, occurredOn, reason, None)))
      else (match PrepareReplacement(l, r.ctx, replacement.value)
            case Err(e) => Err(e)
            case Ok(draft) =>
              Ok(ReverseAction(ReversalArgs(eventId, r.operationId, r.derivedOperationId, occurredOn, reason, Some(draft)))))
    case Archive(eventId, reason, confirmed) =>
      if r.ctx.role != Admin then Err(PermissionDenied)
      else if !confirmed then Err(InvalidRequest)
      else Ok(ArchiveAction(eventId, reason))
  }

  // ---- Execution ---------------------------------------------------------------------------

  datatype Answer = OneEvent(event: Event) | WholeLifecycle(result: Lifecycle)

  datatype Reply = Reply(answer: Answer, replayed: bool)

  function Perform(l: Ledger, r: Request, action: Action, supply: Supply): (Ledger, Result<Answer, Error>) {
    match action
    case CreateAction(draft) =>
      var (after, e) := CreateEvent(l, r.ctx, r.operationId, draft, supply.now, supply.eventId);
      (after, AsAnswer(e))
    case DecideAction(eventId, decision, reason, explanation) =>
      var (after, e) := DecidePendingEvent(l, r.ctx, eventId, decision, reason, explanation, supply.now);
      (after, AsAnswer(e))
    case ReverseAction(args) =>
      var (after, e) := ReverseEvent(l, r.ctx, args, r.expectedVersion, supply);
      (after, if e.Ok? then Ok(WholeLifecycle(e.value)) else Err(e.error))
    case ArchiveAction(eventId, reason) =>
      var (after, e) := ArchiveEvent(l, r.ctx, eventId, r.expectedVersion, reason, supply.now);
      (after, AsAnswer(e))
  }

  function AsAnswer(e: Result<Event, Error>): Result<Answer, Error> {
    if e.Ok? then Ok(OneEvent(e.value)) else Err(e.error)
  }

  /** The event an answer is about: for a reversal, the original. */
  function Subject(a: Answer): Event {
    if a.OneEvent? then a.event else a.result.original
  }

  function SuccessCode(c: Command): OutcomeCode {
    match c
    case CreateManual(_) => CreatedCode
    case Decide(_, decision, _, _) => if decision == Approve then ApprovedCode else RejectedCode
    case Reverse(_, _, _, _) => ReversedCode
    case Correct(_, _, _, _, _) => CorrectedCode
    case Archive(_, _, _) => ArchivedCode
  }

  function SuccessOutcome(c: Command, a: Answer): SafeOutcome {
    SafeOutcome(SuccessCode(c), if c.CreateManual? then 201 else 200, Some(FinancialEventResource), Some(Subject(a).id), Some(Subject(a).version))
  }

  /** The failures a command records for its replays; every other one leaves the claim unfinished. */
  function FailureOutcome(c: Command, e: Error): Option<SafeOutcome> {
    if c.CreateManual? then None
    else if e == NotFound || e == PermissionDenied then Some(SafeOutcome(ResourceNotFoundCode, 404, None, None, None))
    else if c.Decide? then
      if e == StateConflict then Some(SafeOutcome(InvalidStateTransitionCode, 409, None, None, None)) else None
    else if e == VersionMismatch then Some(SafeOutcome(VersionMismatchCode, 412, None, None, None))
    else if e == LifecycleConflict then Some(SafeOutcome(InvalidStateTransitionCode, 409, None, None, None))
    else None
  }

  // ---- Replays -----------------------------------------------------------------------------

  function Recorded(code: OutcomeCode, stateError: Error): Option<Error> {
    match code
    case ResourceNotFoundCode => Some(NotFound)
    case VersionMismatchCode => Some(VersionMismatch)
    case InvalidStateTransitionCode => Some(stateError)
    case _ => None
  }

  function ReplayCreate(l: Ledger, ctx: Context, outcome: Option<SafeOutcome>): Result<Answer, Error> {
    if outcome.None? || outcome.value.code != CreatedCode || outcome.value.resourceType != Some(FinancialEventResource)
       || outcome.value.resourceId.None? then Err(ReplayUnavailable)
    else match GetEvent(l, ctx, outcome.value.resourceId.value)
      case Err(e) => Err(e)
      case Ok(found) => if found.None? then Err(ReplayUnavailable) else Ok(OneEvent(found.value))
  }

  function ReplayDecision(l: Ledger, ctx: Context, eventId: Uuid, decision: Decision, outcome: Option<SafeOutcome>): Result<Answer, Error> {
    var expected := if decision == Approve then Approved else Rejected;
    if outcome.Some? && outcome.value.code == ResourceNotFoundCode then Err(NotFound)
    else if outcome.Some? && outcome.value.code == InvalidStateTransitionCode then Err(StateConflict)
    else if outcome.None? || outcome.value.code != (if decision == Approve then ApprovedCode else RejectedCode)
            || outcome.value.resourceType != Some(FinancialEventResource) || outcome.value.resourceId != Some(eventId) then Err(ReplayUnavailable)
    else match GetEvent(l, ctx, eventId)
      case Err(e) => Err(e)
      case Ok(found) => if found.None? || found.value.approval != expected then Err(ReplayUnavailable) else Ok(OneEvent(found.value))
  }

  ghost function ReplayReversal(l: Ledger, ctx: Context, eventId: Uuid, code: OutcomeCode,
                                outcome: Option<SafeOutcome>): Result<Answer, Error> {
    if outcome.Some? && Recorded(outcome.value.code, LifecycleConflict).Some? then Err(Recorded(outcome.value.code, LifecycleConflict).value)
    else if outcome.None? || outcome.value.code != code || outcome.value.resourceId != Some(eventId) then Err(ReplayUnavailable)
    else if !FinanceValid(l.access, ctx) then Err(NotFound)
    else if eventId !in l.events || LifecycleOf(l.events, eventId).reversal.None? then Err(ReplayUnavailable)
    else Ok(WholeLifecycle(LifecycleOf(l.events, eventId)))
  }

  function ReplayArchive(l: Ledger, ctx: Context, eventId: Uuid, outcome: Option<SafeOutcome>): Result<Answer, Error> {
    if outcome.Some? && Recorded(outcome.value.code, LifecycleConflict).Some? then Err(Recorded(outcome.value.code, LifecycleConflict).value)
    else if outcome.None? || outcome.value.code != ArchivedCode || outcome.value.resourceId != Some(eventId) then Err(ReplayUnavailable)
    else match GetEvent(l, ctx, eventId)
      case Err(e) => Err(e)
      case Ok(found) => if found.None? || found.value.archivedAt.None? then Err(ReplayUnavailable) else Ok(OneEvent(found.value))
  }

  ghost function ReplayAnswer(l: Ledger, ctx: Context, c: Command, outcome: Option<SafeOutcome>): Result<Answer, Error> {
    match c
    case CreateManual(_) => ReplayCreate(l, ctx, outcome)
    case Decide(eventId, decision, _, _) => ReplayDecision(l, ctx, eventId, decision, outcome)
    case Reverse(eventId, _, _, _) => ReplayReversal(l, ctx, eventId, ReversedCode, outcome)
    case Correct(eventId, _, _, _, _) => ReplayReversal(l, ctx, eventId, CorrectedCode, outcome)
    case Archive(eventId, _, _) => ReplayArchive(l, ctx, eventId, outcome)
  }

  // ---- One request -------------------------------------------------------------------------

  datatype Db = Db(ledger: Ledger, records: Records)

  /** Recording how a started claim's action went. */
  function Concluded(records: Records, access: Access, r: Request, claim: IdempotencyClaim,
                     performed: Result<Answer, Error>, supply: Supply): (Records, Result<Reply, Error>) {
    match performed
    case Err(e) =>
      var failure := FailureOutcome(r.command, e);
      if failure.None? then (records, Err(e))
      else
        var (after, f) := FinishClaim(records, access, r.ctx, OperationOf(r.command), claim, failure.value, Failed, supply.now);
        (after, Err(if f.Err? then f.error else e))
    case Ok(answer) =>
      var (after, f) := FinishClaim(records, access, r.ctx, OperationOf(r.command), claim, SuccessOutcome(r.command, answer), Completed, supply.now);
      (after, if f.Err? then Err(f.error) else Ok(Reply(answer, false)))
  }

  /** Running a started claim: perform the action, then record how it went. */
  function Execute(db: Db, r: Request, action: Action, claim: IdempotencyClaim, supply: Supply): (Db, Result<Reply, Error>) {
    var (ledger, performed) := Perform(db.ledger, r, action, supply);
    var (records, reply) := Concluded(db.records, ledger.access, r, claim, performed, supply);
    (Db(ledger, records), reply)
  }

  /** The service's part of a request, inside the transaction. */
  ghost function Serve(db: Db, r: Request, supply: Supply): (Db, Result<Reply, Error>) {
    match Admit(db.ledger, r)
    case Err(e) => (db, Err(e))
    case Ok(action) =>
      var (records, begun) := Claim(db.records, db.ledger.access, r.ctx, MetadataOf(r), supply);
      var claimed := db.(records := records);
      match begun
      case Err(e) => (claimed, Err(e))
      case Ok(claim) =>
        match claim.disposition
        case StillInProgress => (claimed, Err(CommandInProgress))
        case NeedsRecovery => (claimed, Err(RecoveryRequired))
        case Replay =>
          var found := ReplayAnswer(db.ledger, r.ctx, r.command, claim.outcome);
          (claimed, if found.Ok? then Ok(Reply(found.value, true)) else Err(found.error))
        case Started => Execute(claimed, r, action, claim, supply)
  }

  /** The errors that escape the endpoint and roll its transaction back; the others become responses. */
  predicate RollsBack(e: Error) {
    e == InvalidRequest || e == IntegrityViolation || e == LeaseConflict
  }

  /** One request, committed or rolled back. */
  ghost function Handle(db: Db, r: Request, supply: Supply): (Db, Result<Reply, Error>) {
    var (after, reply) := Serve(db, r, supply);
    if reply.Err? && RollsBack(reply.error) then (db, reply) else (after, reply)
  }

  // ---- Pending edits -----------------------------------------------------------------------

  /** The fields an edit names; None is a field it does not name. */
  datatype PendingUpdate = PendingUpdate(
    activity: Option<Activity>,
    occurredOn: Option<int>,
    categoryId: Option<Uuid>,
    money: Option<(string, string)>,
    paymentMethod: Option<PaymentMethod>,
    counterparty: Option<Option<string>>,
    reference: Option<Option<string>>,
    notes: Option<Option<string>>)

  predicate NamesNothing(u: PendingUpdate) {
    && u.activity.None? && u.occurredOn.None? && u.categoryId.None? && u.money.None? && u.paymentMethod.None?
    && u.counterparty.None? && u.reference.None? && u.notes.None?
  }

  predicate UpdateTextsAcceptable(u: PendingUpdate) {
    && (u.counterparty.Some? ==> AcceptableText(u.counterparty.value, 256))
    && (u.reference.Some? ==> AcceptableText(u.reference.value, 128))
    && (u.notes.Some? ==> AcceptableText(u.notes.value, 2000))
  }

  function PrepareUpdate(u: PendingUpdate): Result<Changes, Error> {
    if u.money.Some? && MoneyModel.Submitted(u.money.value.0, u.money.value.1).Err? then Err(InvalidRequest)
    else if !UpdateTextsAcceptable(u) then Err(InvalidRequest)
    else Ok(Changes(u.activity, u.occurredOn, u.categoryId,
                    if u.money.None? then None else Some(MoneyModel.Submitted(u.money.value.0, u.money.value.1).value),
                    u.paymentMethod, u.counterparty, u.reference, u.notes))
  }

  /** An edit, committed or rolled back. It takes no claim. */
  function HandleEdit(l: Ledger, ctx: Context, eventId: Uuid, expectedVersion: int, u: PendingUpdate, now: Instant): (Ledger, Result<Event, Error>) {
    if NamesNothing(u) then (l, Err(InvalidRequest))
    else if ctx.role != Contributor then (l, Err(PermissionDenied))
    else match PrepareUpdate(u)
      case Err(e) => (l, Err(e))
      case Ok(changes) => UpdatePendingEvent(l, ctx, eventId, expectedVersion, changes, now)
  }
}
