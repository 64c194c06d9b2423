/**
 What holds of every run of finance requests: the ledger and the records stay valid, each command takes
 effect at most once, and replays say what the first run said.
 */
module CommandSafety {
  import opened Common
  import opened Ledger
  import opened LedgerSafety
  import opened LedgerHistory
  import opened Idempotency
  import opened Commands
  import MoneyModel

  // ---- Admission ---------------------------------------------------------------------------

  ghost predicate ActionAccepted(a: Action) {
    match a
    case CreateAction(draft) => DraftAccepted(draft)
    case DecideAction(_, _, _, _) => true
    case ReverseAction(args) => ArgsAccepted(args)
    case ArchiveAction(_, _) => true
  }

  lemma PreparedIsAccepted(l: Ledger, ctx: Context, m: Manual)
    ensures PrepareManual(l, ctx, m).Ok? ==>
              DraftAccepted(PrepareManual(l, ctx, m).value) && CategoryError(l, ctx, m.categoryId, m.kind, m.activity).None?
    ensures PrepareReplacement(l, ctx, m).Ok? ==>
              DraftAccepted(PrepareReplacement(l, ctx, m).value) && CategoryError(l, ctx, m.categoryId, m.kind, m.activity).None?
  {
    if MoneyModel.Submitted(m.amount, m.currencyCode).Ok? {
      MoneyModel.SubmittedIsExact(m.amount, m.currencyCode);
    }
  }

  lemma AdmittedIsAccepted(l: Ledger, r: Request)
    requires Admit(l, r).Ok?
    ensures ActionAccepted(Admit(l, r).value)
  {
    match r.command
    case CreateManual(m) => PreparedIsAccepted(l, r.ctx, m);
    case Correct(_, _, _, _, replacement) =>
      if replacement.Some? {
        PreparedIsAccepted(l, r.ctx, replacement.value);
      }
    case _ =>
  }

  // ---- One execution -----------------------------------------------------------------------

  lemma PerformKeepsValid(l: Ledger, r: Request, action: Action, supply: Supply)
    requires Valid(l) && ActionAccepted(action)
    ensures Valid(Perform(l, r, action, supply).0)
  {
    match action
    case CreateAction(draft) => CreateKeepsValid(l, r.ctx, r.operationId, draft, supply.now, supply.eventId);
    case DecideAction(eventId, decision, reason, explanation) =>
      DecideKeepsValid(l, r.ctx, eventId, decision, reason, explanation, supply.now);
    case ReverseAction(args) => ReverseKeepsValid(l, r.ctx, args, r.expectedVersion, supply);
    case ArchiveAction(eventId, reason) => ArchiveKeepsValid(l, r.ctx, eventId, r.expectedVersion, reason, supply.now);
  }

  lemma PerformIsLater(l: Ledger, r: Request, action: Action, supply: Supply)
    requires Valid(l)
    ensures Later(l.events, Perform(l, r, action, supply).0.events)
  {
    match action
    case CreateAction(draft) =>
      CreateIsLater(l, r.ctx, r.operationId, draft, supply.now, supply.eventId);
      assert Perform(l, r, action, supply).0 == CreateEvent(l, r.ctx, r.operationId, draft, supply.now, supply.eventId).0;
    case DecideAction(eventId, decision, reason, explanation) =>
      DecisionIsLater(l, r.ctx, eventId, decision, reason, explanation, supply.now);
      assert Perform(l, r, action, supply).0 == DecidePendingEvent(l, r.ctx, eventId, decision, reason, explanation, supply.now).0;
    case ReverseAction(args) =>
      ReverseIsLater(l, r.ctx, args, r.expectedVersion, supply);
      assert Perform(l, r, action, supply).0 == ReverseEvent(l, r.ctx, args, r.expectedVersion, supply).0;
    case ArchiveAction(eventId, reason) =>
      ArchiveIsLater(l, r.ctx, eventId, r.expectedVersion, reason, supply.now);
      assert Perform(l, r, action, supply).0 == ArchiveEvent(l, r.ctx, eventId, r.expectedVersion, reason, supply.now).0;
  }

  lemma PerformChangesOnlyEvents(l: Ledger, r: Request, action: Action, supply: Supply)
    ensures var (after, e) := Perform(l, r, action, supply);
            && after.categories == l.categories && after.access == l.access
            && (e.Err? ==> after == l)
  {
  }

  /** Enough has happened that the command can never take effect again. */
  ghost predicate Spent(rows: Rows, action: Action, operationId: Uuid) {
    match action
    case CreateAction(_) => !NewOperation(rows, operationId)
    case DecideAction(eventId, _, _, _) => eventId in rows && rows[eventId].approval != Pending
    case ReverseAction(args) => args.eventId in rows && rows[args.eventId].posting == Reversed
    case ArchiveAction(eventId, _) => eventId in rows && rows[eventId].archivedAt.Some?
  }

  lemma PerformSpends(l: Ledger, r: Request, action: Action, supply: Supply)
    requires Valid(l) && Perform(l, r, action, supply).1.Ok?
    ensures Spent(Perform(l, r, action, supply).0.events, action, r.operationId)
  {
    match action
    case CreateAction(draft) =>
      var e := NewEvent(r.ctx, r.operationId, draft, supply.now, supply.eventId);
      assert Perform(l, r, action, supply).0.events[supply.eventId] == e;
    case DecideAction(eventId, decision, reason, explanation) =>
      DecisionWrote(l, r.ctx, eventId, decision, reason, explanation, supply.now);
      assert l.events[eventId].id == eventId;
    case ReverseAction(args) =>
      ReverseWrote(l, r.ctx, args, r.expectedVersion, supply);
      assert l.events[args.eventId].id == args.eventId;
    case ArchiveAction(eventId, reason) =>
      ArchiveWrote(l, r.ctx, eventId, r.expectedVersion, reason, supply.now);
  }

  lemma SpentForGood(rows: Rows, after: Rows, action: Action, operationId: Uuid)
    requires Spent(rows, action, operationId) && AllEvolve(rows, after)
    ensures Spent(after, action, operationId)
  {
  }

  lemma SpentFails(l: Ledger, r: Request, action: Action, supply: Supply)
    requires WellKeyed(l.events) && Spent(l.events, action, r.operationId)
    ensures Perform(l, r, action, supply).1.Err? && Perform(l, r, action, supply).0 == l
  {
  }

  // ---- One request -------------------------------------------------------------------------

  ghost predicate NoneInProgress(records: Records) {
    forall k {:trigger records[k]} :: k in records ==> records[k].state != InProgress
  }

  ghost predicate DbValid(db: Db) {
    Valid(db.ledger) && RecordsValid(db.records) && NoneInProgress(db.records)
  }

  /** What the claim of an admitted request comes back with, when no record is in progress. */
  lemma ClaimOutcomes(records: Records, access: Access, r: Request, supply: Supply)
    requires RecordsValid(records) && NoneInProgress(records)
    ensures var (after, begun) := Claim(records, access, r.ctx, MetadataOf(r), supply);
            && (begun.Err? ==> after == records)
            && (begun.Ok? ==> begun.value.disposition == Started || (begun.value.disposition == Replay && after == records))
            && (begun.Ok? && begun.value.disposition == Started ==>
                  && MemberValid(access, r.ctx) && MayClaim(r.ctx.role, OperationOf(r.command))
                  && begun.value == StartedClaim(NewRecord(r.ctx, MetadataOf(r), supply))
                  && supply.recordId in after && after[supply.recordId] == NewRecord(r.ctx, MetadataOf(r), supply)
                  && forall k {:trigger after[k]} :: k in after && k != supply.recordId ==> k in records && after[k] == records[k])
  {
  }

  /** Finishing a claim this request has just started always succeeds. */
  lemma OwnClaimFinishes(records: Records, access: Access, r: Request, supply: Supply, outcome: SafeOutcome,
                         state: State)
    requires MemberValid(access, r.ctx) && MayClaim(r.ctx.role, OperationOf(r.command))
    requires supply.recordId in records && records[supply.recordId] == NewRecord(r.ctx, MetadataOf(r), supply)
    ensures var finished := Finished(NewRecord(r.ctx, MetadataOf(r), supply), outcome, state, supply.now);
            FinishClaim(records, access, r.ctx, OperationOf(r.command), StartedClaim(NewRecord(r.ctx, MetadataOf(r), supply)), outcome, state, supply.now)
            == (records[supply.recordId := finished], Ok(ClaimOf(finished, Replay)))
  {
  }

  /** What an answer shows is what is stored. */
  ghost predicate Stored(rows: Rows, e: Event) {
    e.id in rows && rows[e.id] == e
  }

  lemma CreatedIsStored(l: Ledger, ctx: Context, operationId: Uuid, d: Draft, now: Instant, id: Uuid)
    ensures var (after, e) := CreateEvent(l, ctx, operationId, d, now, id);
            e.Ok? ==> Stored(after.events, e.value)
  {
  }

  lemma DecidedIsStored(l: Ledger, ctx: Context, eventId: Uuid, decision: Decision, reason: Reason,
                        explanation: Option<string>, now: Instant)
    ensures var (after, e) := DecidePendingEvent(l, ctx, eventId, decision, reason, explanation, now);
            e.Ok? ==> Stored(after.events, e.value)
  {
  }

  lemma ReversedIsStored(l: Ledger, ctx: Context, a: ReversalArgs, expectedVersion: int, supply: Supply)
    requires RowsValid(l.events, l.categories)
    ensures var (after, e) := ReverseEvent(l, ctx, a, expectedVersion, supply);
            e.Ok? ==> Stored(after.events, e.value.original)
  {
  }

  lemma ArchivedIsStored(l: Ledger, ctx: Context, eventId: Uuid, expectedVersion: int, reason: Reason, now: Instant)
    requires Valid(l)
    ensures var (after, e) := ArchiveEvent(l, ctx, eventId, expectedVersion, reason, now);
            e.Ok? ==> Stored(after.events, e.value)
  {
    if ArchiveEvent(l, ctx, eventId, expectedVersion, reason, now).1.Ok? {
      ArchiveWrote(l, ctx, eventId, expectedVersion, reason, now);
    }
  }

  lemma AnswerIsStored(l: Ledger, r: Request, action: Action, supply: Supply)
    requires Valid(l) && Perform(l, r, action, supply).1.Ok?
    ensures Stored(Perform(l, r, action, supply).0.events, Subject(Perform(l, r, action, supply).1.value))
  {
    match action
    case CreateAction(draft) => CreatedIsStored(l, r.ctx, r.operationId, draft, supply.now, supply.eventId);
    case DecideAction(eventId, decision, reason, explanation) =>
      DecidedIsStored(l, r.ctx, eventId, decision, reason, explanation, supply.now);
    case ReverseAction(args) => ReversedIsStored(l, r.ctx, args, r.expectedVersion, supply);
    case ArchiveAction(eventId, reason) => ArchivedIsStored(l, r.ctx, eventId, r.expectedVersion, reason, supply.now);
  }

  lemma StoredIsStorable(rows: Rows, c: Command, a: Answer)
    requires AllChecked(rows) && Stored(rows, Subject(a))
    ensures NewOutcome(SuccessOutcome(c, a)).Ok?
  {
  }

  lemma SuccessIsStorable(l: Ledger, r: Request, action: Action, supply: Supply)
    requires Valid(l) && ActionAccepted(action) && Perform(l, r, action, supply).1.Ok?
    ensures NewOutcome(SuccessOutcome(r.command, Perform(l, r, action, supply).1.value)).Ok?
  {
    AnswerIsStored(l, r, action, supply);
    PerformKeepsValid(l, r, action, supply);
    StoredIsStorable(Perform(l, r, action, supply).0.events, r.command, Perform(l, r, action, supply).1.value);
  }

  /** The record a request leaves when its execution ends with an outcome. */
  function Final(r: Request, supply: Supply, outcome: SafeOutcome, state: State): Record {
    Finished(NewRecord(r.ctx, MetadataOf(r), supply), outcome, state, supply.now)
  }

  /** The request's claim is started: its key is free, or its record has expired. */
  ghost predicate Starts(db: Db, r: Request, supply: Supply) {
    var begun := Claim(db.records, db.ledger.access, r.ctx, MetadataOf(r), supply).1;
    begun.Ok? && begun.value.disposition == Started
  }

  ghost function Claimed(db: Db, r: Request, supply: Supply): Records {
    Claim(db.records, db.ledger.access, r.ctx, MetadataOf(r), supply).0
  }

  /** What a started request commits, given what its action did to the ledger. */
  ghost function Committed(db: Db, r: Request, supply: Supply, ledger: Ledger, performed: Result<Answer, Error>): Db {
    var records := Claimed(db, r, supply);
    match performed
    case Ok(answer) => Db(ledger, records[supply.recordId := Final(r, supply, SuccessOutcome(r.command, answer), Completed)])
    case Err(e) =>
      if RollsBack(e) then db
      else if FailureOutcome(r.command, e).None? then Db(ledger, records)
      else Db(ledger, records[supply.recordId := Final(r, supply, FailureOutcome(r.command, e).value, Failed)])
  }

  function ReplyTo(performed: Result<Answer, Error>): Result<Reply, Error> {
    match performed
    case Ok(answer) => Ok(Reply(answer, false))
    case Err(e) => Err(e)
  }

  /** How a started execution ends: at most one write to the ledger and one finished record. */
  lemma ExecutionEnds(db: Db, r: Request, supply: Supply, ledger: Ledger, performed: Result<Answer, Error>)
    requires DbValid(db) && Admit(db.ledger, r).Ok? && Starts(db, r, supply)
    requires (ledger, performed) == Perform(db.ledger, r, Admit(db.ledger, r).value, supply)
    ensures Handle(db, r, supply) == (Committed(db, r, supply, ledger, performed), ReplyTo(performed))
  {
    PerformChangesOnlyEvents(db.ledger, r, Admit(db.ledger, r).value, supply);
    ClaimOutcomes(db.records, db.ledger.access, r, supply);
    var records := Claimed(db, r, supply);
    if performed.Ok? {
      OwnClaimFinishes(records, ledger.access, r, supply, SuccessOutcome(r.command, performed.value), Completed);
    } else if FailureOutcome(r.command, performed.error).Some? {
      OwnClaimFinishes(records, ledger.access, r, supply, FailureOutcome(r.command, performed.error).value, Failed);
    }
  }

  /** A failure that no record keeps rolls the whole request back, so no claim is ever left in progress. */
  lemma FailuresAreRecordedOrRolledBack(l: Ledger, r: Request, supply: Supply)
    requires Admit(l, r).Ok? && Perform(l, r, Admit(l, r).value, supply).1.Err?
    ensures var e := Perform(l, r, Admit(l, r).value, supply).1.error;
            FailureOutcome(r.command, e).Some? || RollsBack(e)
  {
  }

  lemma AdmissionErrors(l: Ledger, r: Request)
    requires Admit(l, r).Err?
    ensures Admit(l, r).error in {NotFound, PermissionDenied, InvalidCategory, InvalidRequest}
  {
  }

  lemma ReplayErrors(l: Ledger, ctx: Context, c: Command, outcome: Option<SafeOutcome>)
    requires ReplayAnswer(l, ctx, c, outcome).Err?
    ensures ReplayAnswer(l, ctx, c, outcome).error in {NotFound, VersionMismatch, StateConflict, LifecycleConflict, ReplayUnavailable}
  {
  }

  /** With no record in progress, a claim is started, replayed, or refused. */
  lemma ClaimErrors(records: Records, access: Access, ctx: Context, meta: Metadata, supply: Supply)
    requires Claim(records, access, ctx, meta, supply).1.Err?
    ensures Claim(records, access, ctx, meta, supply).1.error in {NotFound, PermissionDenied, KeyReused, IntegrityViolation}
  {
  }

  /** Either the request starts an execution, or it changes nothing at all. */
  lemma NotStartedChangesNothing(db: Db, r: Request, supply: Supply)
    requires DbValid(db) && (Admit(db.ledger, r).Err? || !Starts(db, r, supply))
    ensures Handle(db, r, supply).0 == db
    ensures Handle(db, r, supply).1.Ok? ==> Handle(db, r, supply).1.value.replayed
    ensures Handle(db, r, supply).1 != Err(CommandInProgress) && Handle(db, r, supply).1 != Err(RecoveryRequired)
  {
    if Admit(db.ledger, r).Err? {
      AdmissionErrors(db.ledger, r);
    } else {
      ReplayedOrRefused(db, r, supply, Admit(db.ledger, r).value);
    }
  }

  lemma ReplayedOrRefused(db: Db, r: Request, supply: Supply, action: Action)
    requires DbValid(db) && Admit(db.ledger, r) == Ok(action) && !Starts(db, r, supply)
    ensures Handle(db, r, supply).0 == db
    ensures Handle(db, r, supply).1.Ok? ==> Handle(db, r, supply).1.value.replayed
    ensures Handle(db, r, supply).1 != Err(CommandInProgress) && Handle(db, r, supply).1 != Err(RecoveryRequired)
  {
    ClaimOutcomes(db.records, db.ledger.access, r, supply);
    var begun := Claim(db.records, db.ledger.access, r.ctx, MetadataOf(r), supply).1;
    if begun.Err? {
      ClaimErrors(db.records, db.ledger.access, r.ctx, MetadataOf(r), supply);
    } else if ReplayAnswer(db.ledger, r.ctx, r.command, begun.value.outcome).Err? {
      ReplayErrors(db.ledger, r.ctx, r.command, begun.value.outcome);
    }
  }

  lemma ExecutionKeepsRecords(db: Db, r: Request, supply: Supply, outcome: SafeOutcome, state: State)
    requires DbValid(db) && Starts(db, r, supply) && NewOutcome(outcome).Ok? && state != InProgress
    ensures var after := Claimed(db, r, supply)[supply.recordId := Final(r, supply, outcome, state)];
            RecordsValid(after) && NoneInProgress(after)
  {
  }

  lemma CommittedIsValid(db: Db, r: Request, supply: Supply, ledger: Ledger, performed: Result<Answer, Error>)
    requires DbValid(db) && Starts(db, r, supply) && Valid(ledger)
    requires match performed
             case Ok(answer) => NewOutcome(SuccessOutcome(r.command, answer)).Ok?
             case Err(e) => FailureOutcome(r.command, e).Some? || RollsBack(e)
    ensures DbValid(Committed(db, r, supply, ledger, performed))
  {
    if performed.Ok? {
      ExecutionKeepsRecords(db, r, supply, SuccessOutcome(r.command, performed.value), Completed);
    } else if FailureOutcome(r.command, performed.error).Some? {
      ExecutionKeepsRecords(db, r, supply, FailureOutcome(r.command, performed.error).value, Failed);
    }
  }

  /** Every committed request leaves a valid ledger, sound records, and no claim in progress. */
  lemma HandleKeepsValid(db: Db, r: Request, supply: Supply)
    requires DbValid(db)
    ensures DbValid(Handle(db, r, supply).0)
  {
    if Admit(db.ledger, r).Err? || !Starts(db, r, supply) {
      NotStartedChangesNothing(db, r, supply);
    } else {
      var action := Admit(db.ledger, r).value;
      var (ledger, performed) := Perform(db.ledger, r, action, supply);
      AdmittedIsAccepted(db.ledger, r);
      PerformKeepsValid(db.ledger, r, action, supply);
      if performed.Ok? {
        SuccessIsStorable(db.ledger, r, action, supply);
      } else {
        FailuresAreRecordedOrRolledBack(db.ledger, r, supply);
      }
      CommittedIsValid(db, r, supply, ledger, performed);
      ExecutionEnds(db, r, supply, ledger, performed);
    }
  }

  // ---- Progress ----------------------------------------------------------------------------

  /** What an admitted action still needs in order to take effect. */
  ghost predicate ActionReady(l: Ledger, r: Request, action: Action, supply: Supply) {
    match action
    case CreateAction(_) => supply.eventId !in l.events && NewOperation(l.events, r.operationId)
    case DecideAction(eventId, _, _, _) => FinanceValid(l.access, r.ctx) && eventId in l.events && Editable(l.events[eventId])
    case ReverseAction(args) =>
      && FinanceValid(l.access, r.ctx) && args.eventId in l.events && l.events[args.eventId].version == r.expectedVersion
      && Reversible(l.events[args.eventId]) && IdsAreNew(l.events, args, supply)
    case ArchiveAction(eventId, _) =>
      && FinanceValid(l.access, r.ctx) && eventId in l.events && l.events[eventId].version == r.expectedVersion
      && l.events[eventId].approval != Pending && l.events[eventId].archivedAt.None? && l.events[eventId].reverses.None?
  }

  lemma DecisionTakesEffect(l: Ledger, ctx: Context, eventId: Uuid, decision: Decision, reason: Reason,
                            explanation: Option<string>, now: Instant)
    requires RowsValid(l.events, l.categories) && LinksPresent(l.events) && ctx.role == Admin
    requires (decision == Approve) == explanation.None? && (explanation.Some? ==> |explanation.value| <= 512)
    ensures DecidePendingEvent(l, ctx, eventId, decision, reason, explanation, now).1.Ok? <==>
            FinanceValid(l.access, ctx) && eventId in l.events && Editable(l.events[eventId])
  {
    DecideGoesThrough(l, ctx, eventId, decision, reason, explanation, now);
  }

  lemma ReversalTakesEffect(l: Ledger, ctx: Context, a: ReversalArgs, expectedVersion: int, supply: Supply)
    requires Valid(l) && ctx.role == Admin && ArgsAccepted(a)
    requires a.replacement.Some? ==> a.replacement.value.categoryId in l.categories
    ensures ReverseEvent(l, ctx, a, expectedVersion, supply).1.Ok? <==>
            && FinanceValid(l.access, ctx) && a.eventId in l.events && l.events[a.eventId].version == expectedVersion
            && Reversible(l.events[a.eventId]) && IdsAreNew(l.events, a, supply)
  {
    if a.eventId in l.events && Reversible(l.events[a.eventId]) {
      GuardedWritesGoThrough(l, ctx, a, supply);
    }
  }

  lemma ArchiveTakesEffect(l: Ledger, ctx: Context, eventId: Uuid, expectedVersion: int, reason: Reason, now: Instant)
    requires Valid(l) && ctx.role == Admin
    ensures ArchiveEvent(l, ctx, eventId, expectedVersion, reason, now).1.Ok? <==>
            && FinanceValid(l.access, ctx) && eventId in l.events && l.events[eventId].version == expectedVersion
            && l.events[eventId].approval != Pending && l.events[eventId].archivedAt.None? && l.events[eventId].reverses.None?
  {
    if FinanceValid(l.access, ctx) && eventId in l.events && l.events[eventId].version == expectedVersion
       && l.events[eventId].approval != Pending && l.events[eventId].archivedAt.None? {
      ArchiveGoesThrough(l, ctx, eventId, expectedVersion, reason, now);
    }
  }

  /** The facts admission establishes for each kind of action. */
  ghost predicate Prepared(l: Ledger, r: Request, action: Action) {
    match action
    case CreateAction(draft) => DraftAccepted(draft) && CategoryError(l, r.ctx, draft.categoryId, draft.kind, draft.activity).None?
    case DecideAction(_, decision, _, explanation) =>
      r.ctx.role == Admin && (decision == Approve) == explanation.None? && (explanation.Some? ==> |explanation.value| <= 512)
    case ReverseAction(args) =>
      r.ctx.role == Admin && ArgsAccepted(args) && (args.replacement.Some? ==> args.replacement.value.categoryId in l.categories)
    case ArchiveAction(_, _) => r.ctx.role == Admin
  }

  lemma AdmittedIsPrepared(l: Ledger, r: Request)
    requires Admit(l, r).Ok?
    ensures Prepared(l, r, Admit(l, r).value)
  {
    match r.command
    case CreateManual(m) => PreparedIsAccepted(l, r.ctx, m);
    case Correct(_, _, _, _, replacement) =>
      if replacement.Some? {
        PreparedIsAccepted(l, r.ctx, replacement.value);
      }
    case _ =>
  }

  /** An admitted action takes effect exactly when it is ready: nothing in the database refuses it otherwise. */
  lemma PreparedTakesEffect(l: Ledger, r: Request, action: Action, supply: Supply)
    requires Valid(l) && Prepared(l, r, action)
    ensures Perform(l, r, action, supply).1.Ok? <==> ActionReady(l, r, action, supply)
  {
    match action
    case CreateAction(draft) => CreateGoesThrough(l, r.ctx, r.operationId, draft, supply.now, supply.eventId);
    case DecideAction(eventId, decision, reason, explanation) =>
      DecisionTakesEffect(l, r.ctx, eventId, decision, reason, explanation, supply.now);
    case ReverseAction(args) => ReversalTakesEffect(l, r.ctx, args, r.expectedVersion, supply);
    case ArchiveAction(eventId, reason) => ArchiveTakesEffect(l, r.ctx, eventId, r.expectedVersion, reason, supply.now);
  }

  /** A request succeeds as a first run exactly when it is admitted, its claim starts and its action is ready. */
  lemma RequestsTakeEffect(db: Db, r: Request, supply: Supply)
    requires DbValid(db)
    ensures (Handle(db, r, supply).1.Ok? && !Handle(db, r, supply).1.value.replayed) <==>
            Admit(db.ledger, r).Ok? && Starts(db, r, supply) && ActionReady(db.ledger, r, Admit(db.ledger, r).value, supply)
  {
    if Admit(db.ledger, r).Err? || !Starts(db, r, supply) {
      NotStartedChangesNothing(db, r, supply);
    } else {
      var action := Admit(db.ledger, r).value;
      var (ledger, performed) := Perform(db.ledger, r, action, supply);
      AdmittedIsPrepared(db.ledger, r);
      PreparedTakesEffect(db.ledger, r, action, supply);
      ExecutionEnds(db, r, supply, ledger, performed);
    }
  }
}
