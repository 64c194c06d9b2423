/**
 Replays: a finished command answers again what it answered first, in every later state of the run,
 exactly until its record's retention is over.
 */
module CommandReplays {
  import opened Common
  import opened Ledger
  import opened LedgerSafety
  import opened LedgerHistory
  import opened Idempotency
  import opened Commands
  import opened CommandSafety
  import opened CommandRuns
  import opened Runs

  // ---- The record of a finished request ----------------------------------------------------

  /** Record `k` remembers how request `r` ended. */
  ghost predicate Remembers(records: Records, k: Uuid, r: Request, outcome: SafeOutcome, expiry: Instant) {
    && IsSelected(records, OperationOf(r.command), r.keyDigest, k)
    && records[k].actor == r.ctx.membership && records[k].operationId == r.operationId && records[k].fingerprint == r.fingerprint
    && records[k].state != InProgress && records[k].outcome == Some(outcome) && records[k].expiresAt == Some(expiry)
  }

  lemma FinalRemembers(records: Records, r: Request, supply: Supply, outcome: SafeOutcome, state: State)
    requires state != InProgress
    ensures Remembers(records[supply.recordId := Final(r, supply, outcome, state)], supply.recordId, r, outcome, supply.now + TERMINAL_RETENTION)
  {
  }

  lemma CommittedKeepsOthers(db: Db, r: Request, supply: Supply, ledger: Ledger, performed: Result<Answer, Error>,
                             k: Uuid)
    requires DbValid(db) && Starts(db, r, supply) && k in Claimed(db, r, supply) && Claimed(db, r, supply)[k].state != InProgress
    requires k in db.records && Claimed(db, r, supply)[k] == db.records[k]
    ensures var after := Committed(db, r, supply, ledger, performed).records;
            k in after && after[k] == db.records[k]
  {
  }

  /** A request that comes before the expiry leaves the record as it is. */
  lemma HandleKeepsRecord(db: Db, r: Request, supply: Supply, k: Uuid)
    requires DbValid(db) && k in db.records && !ExpiredAt(db.records[k], supply.now)
    ensures var after := Handle(db, r, supply).0.records;
            k in after && after[k] == db.records[k]
  {
    if Admit(db.ledger, r).Err? || !Starts(db, r, supply) {
      NotStartedChangesNothing(db, r, supply);
    } else {
      var (ledger, performed) := Perform(db.ledger, r, Admit(db.ledger, r).value, supply);
      OutcomesAreKept(db.records, db.ledger.access, r.ctx, MetadataOf(r), supply, k);
      CommittedKeepsOthers(db, r, supply, ledger, performed, k);
      ExecutionEnds(db, r, supply, ledger, performed);
    }
  }

  /** Every request of the steps is served before the expiry. */
  predicate ServedBefore(steps: seq<Step>, expiry: Instant) {
    forall i :: 0 <= i < |steps| && steps[i].Serving? ==> steps[i].supply.now < expiry
  }

  lemma {:induction false} RunKeepsRecord(db: Db, steps: seq<Step>, k: Uuid, expiry: Instant)
    requires DbValid(db) && k in db.records && db.records[k].expiresAt == Some(expiry) && ServedBefore(steps, expiry)
    ensures k in After(db, steps).records && After(db, steps).records[k] == db.records[k]
  {
    if steps != [] {
      var n := |steps| - 1;
      RunKeepsRecord(db, steps[..n], k, expiry);
      RunsStayValid(db, steps[..n]);
      NextKeepsRecord(After(db, steps[..n]), steps[n], k);
    }
  }

  lemma NextKeepsRecord(db: Db, step: Step, k: Uuid)
    requires DbValid(db) && k in db.records && (step.Serving? ==> !ExpiredAt(db.records[k], step.supply.now))
    ensures k in Next(db, step).records && Next(db, step).records[k] == db.records[k]
  {
    if step.Serving? {
      HandleKeepsRecord(db, step.request, step.supply, k);
    }
  }

  /** Two requests for the same thing: only the version header may differ. */
  predicate SameRequest(r: Request, again: Request) {
    again.(expectedVersion := r.expectedVersion) == r
  }

  /** A remembered request that is admitted again is answered from its record. */
  lemma RememberedIsReplayed(db: Db, r: Request, supply: Supply, k: Uuid, outcome: SafeOutcome, expiry: Instant)
    requires DbValid(db) && Remembers(db.records, k, r, outcome, expiry) && supply.now < expiry
    requires Admit(db.ledger, r).Ok? && MemberValid(db.ledger.access, r.ctx)
    ensures Claim(db.records, db.ledger.access, r.ctx, MetadataOf(r), supply) == (db.records, Ok(ClaimOf(db.records[k], Replay)))
    ensures !Starts(db, r, supply)
  {
  }

  lemma AdmittedMayClaim(l: Ledger, r: Request)
    requires Admit(l, r).Ok?
    ensures MayClaim(r.ctx.role, OperationOf(r.command))
  {
  }

  lemma ReplayIsHandled(db: Db, r: Request, supply: Supply, record: Record)
    requires Admit(db.ledger, r).Ok?
    requires Claim(db.records, db.ledger.access, r.ctx, MetadataOf(r), supply) == (db.records, Ok(ClaimOf(record, Replay)))
    ensures var found := ReplayAnswer(db.ledger, r.ctx, r.command, record.outcome);
            Handle(db, r, supply) == (db, if found.Ok? then Ok(Reply(found.value, true)) else Err(found.error))
  {
  }

  // ---- What a replay finds -----------------------------------------------------------------

  /** The second answer tells what the first one told, as far as it can no longer change. */
  ghost predicate SameAnswer(first: Answer, again: Answer) {
    match (first, again)
    case (OneEvent(e), OneEvent(f)) => Evolves(e, f)
    case (WholeLifecycle(a), WholeLifecycle(b)) =>
      && Evolves(a.original, b.original) && b.reversal == a.reversal && a.reversal.Some?
      && a.replacement.Some? == b.replacement.Some?
      && (a.replacement.Some? ==> Evolves(a.replacement.value, b.replacement.value))
    case _ => false
  }

  /** The answer a command has just given, as its rows show it. */
  ghost predicate AnswerHolds(rows: Rows, c: Command, a: Answer) {
    match c
    case CreateManual(_) => a.OneEvent? && Stored(rows, a.event)
    case Decide(eventId, decision, _, _) =>
      a.OneEvent? && Stored(rows, a.event) && a.event.id == eventId && a.event.approval == (if decision == Approve then Approved else Rejected)
    case Reverse(eventId, _, _, _) => LifecycleHolds(rows, eventId, a)
    case Correct(eventId, _, _, _, _) => LifecycleHolds(rows, eventId, a)
    case Archive(eventId, _, _) => a.OneEvent? && Stored(rows, a.event) && a.event.id == eventId && a.event.archivedAt.Some?
  }

  ghost predicate LifecycleHolds(rows: Rows, eventId: Uuid, a: Answer) {
    && a.WholeLifecycle? && a.result.original.id == eventId && a.result.original.posting == Reversed
    && a.result.reversal.Some? && IsLifecycleResult(rows, eventId, a.result)
  }

  lemma PlannedLifecycle(rows: Rows, ctx: Context, a: ReversalArgs, supply: Supply)
    requires WellKeyed(rows) && ReversalsSound(rows) && ReplacementsSound(rows)
    requires a.eventId in rows && Reversible(rows[a.eventId]) && supply.eventId !in rows
    requires a.replacement.Some? ==> supply.secondEventId !in rows && supply.secondEventId != supply.eventId
    ensures var (reversal, replacement, flipped) := PlannedReversal(rows[a.eventId], ctx, a, supply);
            IsLifecycleResult(AfterReversal(rows, flipped, reversal, replacement), a.eventId, Lifecycle(flipped, Some(reversal), replacement))
  {
  }

  /** The same, for the action a command was admitted as. */
  ghost predicate ActionAnswerHolds(rows: Rows, action: Action, a: Answer) {
    match action
    case CreateAction(_) => a.OneEvent? && Stored(rows, a.event)
    case DecideAction(eventId, decision, _, _) =>
      a.OneEvent? && Stored(rows, a.event) && a.event.id == eventId && a.event.approval == (if decision == Approve then Approved else Rejected)
    case ReverseAction(args) => LifecycleHolds(rows, args.eventId, a)
    case ArchiveAction(eventId, _) => a.OneEvent? && Stored(rows, a.event) && a.event.id == eventId && a.event.archivedAt.Some?
  }

  lemma DecidedAnswerHolds(l: Ledger, r: Request, eventId: Uuid, decision: Decision, reason: Reason,
                           explanation: Option<string>, supply: Supply)
    requires WellKeyed(l.events) && DecidePendingEvent(l, r.ctx, eventId, decision, reason, explanation, supply.now).1.Ok?
    ensures var (after, e) := DecidePendingEvent(l, r.ctx, eventId, decision, reason, explanation, supply.now);
            ActionAnswerHolds(after.events, DecideAction(eventId, decision, reason, explanation), OneEvent(e.value))
  {
  }

  lemma ReversedAnswerHolds(l: Ledger, r: Request, args: ReversalArgs, supply: Supply)
    requires Valid(l) && ReverseEvent(l, r.ctx, args, r.expectedVersion, supply).1.Ok?
    ensures var (after, e) := ReverseEvent(l, r.ctx, args, r.expectedVersion, supply);
            LifecycleHolds(after.events, args.eventId, WholeLifecycle(e.value))
  {
    ReverseWrote(l, r.ctx, args, r.expectedVersion, supply);
    PlannedLifecycle(l.events, r.ctx, args, supply);
  }

  lemma ArchivedAnswerHolds(l: Ledger, r: Request, eventId: Uuid, reason: Reason, supply: Supply)
    requires Valid(l) && ArchiveEvent(l, r.ctx, eventId, r.expectedVersion, reason, supply.now).1.Ok?
    ensures var (after, e) := ArchiveEvent(l, r.ctx, eventId, r.expectedVersion, reason, supply.now);
            ActionAnswerHolds(after.events, ArchiveAction(eventId, reason), OneEvent(e.value))
  {
    ArchiveWrote(l, r.ctx, eventId, r.expectedVersion, reason, supply.now);
  }

  lemma PerformedAnswerHolds(l: Ledger, r: Request, action: Action, supply: Supply)
    requires Valid(l) && Perform(l, r, action, supply).1.Ok?
    ensures ActionAnswerHolds(Perform(l, r, action, supply).0.events, action, Perform(l, r, action, supply).1.value)
  {
    match action
    case CreateAction(d) => CreatedIsStored(l, r.ctx, r.operationId, d, supply.now, supply.eventId);
    case DecideAction(eventId, decision, reason, explanation) => DecidedAnswerHolds(l, r, eventId, decision, reason, explanation, supply);
    case ReverseAction(args) => ReversedAnswerHolds(l, r, args, supply);
    case ArchiveAction(eventId, reason) => ArchivedAnswerHolds(l, r, eventId, reason, supply);
  }

  lemma AdmittedAnswerHolds(l: Ledger, r: Request, rows: Rows, a: Answer)
    requires Admit(l, r).Ok? && ActionAnswerHolds(rows, Admit(l, r).value, a)
    ensures AnswerHolds(rows, r.command, a)
  {
  }

  lemma SettledAlike(rows: Rows, after: Rows, eventId: Uuid, a: Lifecycle, b: Lifecycle)
    requires Links(rows) && Links(after) && WellKeyed(rows) && WellKeyed(after) && Later(rows, after)
    requires IsLifecycleResult(rows, eventId, a) && a.original.posting == Reversed && a.reversal.Some?
    requires IsLifecycleResult(after, eventId, b)
    ensures SameAnswer(WholeLifecycle(a), WholeLifecycle(b))
  {
    LifecycleIsSettled(rows, after, eventId, a, b);
    EvolvedTo(rows, after, a.original, b.original);
    if a.replacement.Some? {
      EvolvedTo(rows, after, a.replacement.value, b.replacement.value);
    }
  }

  lemma EvolvedTo(rows: Rows, after: Rows, e: Event, f: Event)
    requires AllEvolve(rows, after) && Stored(rows, e) && f.id == e.id && Stored(after, f)
    ensures Evolves(e, f)
  {
  }

  lemma LifecycleReplayed(later: Ledger, ctx: Context, eventId: Uuid, code: OutcomeCode, outcome: SafeOutcome,
                          b: Lifecycle)
    requires FinanceValid(later.access, ctx) && eventId in later.events && LifecycleOf(later.events, eventId) == b && b.reversal.Some?
    requires outcome.code == code && outcome.resourceId == Some(eventId) && code in {ReversedCode, CorrectedCode}
    ensures ReplayReversal(later, ctx, eventId, code, Some(outcome)) == Ok(WholeLifecycle(b))
  {
  }

  lemma LifecycleAnsweredAgain(rows: Rows, later: Ledger, ctx: Context, eventId: Uuid, code: OutcomeCode,
                               outcome: SafeOutcome, a: Answer)
    requires WellKeyed(rows) && Links(rows) && Valid(later) && Later(rows, later.events) && FinanceValid(later.access, ctx)
    requires LifecycleHolds(rows, eventId, a)
    requires outcome.code == code && outcome.resourceId == Some(eventId) && code in {ReversedCode, CorrectedCode}
    ensures var again := ReplayReversal(later, ctx, eventId, code, Some(outcome));
            again.Ok? && SameAnswer(a, again.value)
  {
    StillThere(rows, later.events, eventId);
    LifecycleOfIsResult(later.events, eventId);
    var b := LifecycleOf(later.events, eventId);
    SettledAlike(rows, later.events, eventId, a.result, b);
    LifecycleReplayed(later, ctx, eventId, code, outcome, b);
  }

  lemma StillThere(rows: Rows, after: Rows, k: Uuid)
    requires AllEvolve(rows, after) && k in rows
    ensures k in after && Evolves(rows[k], after[k])
  {
  }

  lemma EventAnsweredAgain(rows: Rows, later: Ledger, ctx: Context, c: Command, a: Answer)
    requires AllEvolve(rows, later.events) && WellKeyed(later.events) && FinanceValid(later.access, ctx)
    requires AnswerHolds(rows, c, a) && a.OneEvent?
    ensures var again := ReplayAnswer(later, ctx, c, Some(SuccessOutcome(c, a)));
            again.Ok? && SameAnswer(a, again.value)
  {
  }

  /** In every later valid ledger, replaying a success finds its answer again. */
  lemma SuccessIsAnsweredAgain(rows: Rows, later: Ledger, ctx: Context, c: Command, a: Answer)
    requires WellKeyed(rows) && Links(rows) && Valid(later) && Later(rows, later.events) && FinanceValid(later.access, ctx)
    requires AnswerHolds(rows, c, a)
    ensures var again := ReplayAnswer(later, ctx, c, Some(SuccessOutcome(c, a)));
            again.Ok? && SameAnswer(a, again.value)
  {
    if a.OneEvent? {
      EventAnsweredAgain(rows, later, ctx, c, a);
    } else {
      LifecycleAnsweredAgain(rows, later, ctx, c.eventId, SuccessCode(c), SuccessOutcome(c, a), a);
    }
  }

  // ---- The theorems ------------------------------------------------------------------------

  /** The category a command validates before its claim, and so before its replays too. */
  function CategoryRefusal(l: Ledger, r: Request): Option<Error> {
    match r.command
    case CreateManual(m) => CategoryError(l, r.ctx, m.categoryId, m.kind, m.activity)
    case Correct(_, _, _, _, replacement) =>
      if replacement.None? then None
      else CategoryError(l, r.ctx, replacement.value.categoryId, replacement.value.kind, replacement.value.activity)
    case _ => None
  }

  /** A request once admitted is later refused before its claim exactly by its category. */
  lemma AdmittedAgain(l: Ledger, later: Ledger, r: Request, again: Request)
    requires Admit(l, r).Ok? && SameRequest(r, again)
    ensures match CategoryRefusal(later, r)
            case Some(e) => Admit(later, again) == Err(e)
            case None => Admit(later, again) == Admit(l, r)
  {
  }

  lemma FirstRunIsRemembered(db: Db, r: Request, supply: Supply)
    requires DbValid(db) && TakesEffect(db, Serving(r, supply))
    ensures Admit(db.ledger, r).Ok?
    ensures var (after, reply) := Handle(db, r, supply);
            && Remembers(after.records, supply.recordId, r, SuccessOutcome(r.command, reply.value.answer), supply.now + TERMINAL_RETENTION)
            && AnswerHolds(after.ledger.events, r.command, reply.value.answer)
  {
    EffectiveRequestsPerform(db, Serving(r, supply));
    PerformedAnswerHolds(db.ledger, r, Admit(db.ledger, r).value, supply);
    var answer := Handle(db, r, supply).1.value.answer;
    AdmittedAnswerHolds(db.ledger, r, Handle(db, r, supply).0.ledger.events, answer);
    FinalRemembers(Claimed(db, r, supply), r, supply, SuccessOutcome(r.command, answer), Completed);
  }

  /**
   Replay faithfulness. Within retention and while the actor's context is valid, repeating a request that
   succeeded gives the same answer and changes nothing, whatever has happened in between; a command that
   names a category is instead refused with the category's error when that category no longer fits.
   */
  lemma ReplaysAreFaithful(db: Db, r: Request, supply: Supply, steps: seq<Step>, again: Request, supply': Supply)
    requires DbValid(db) && TakesEffect(db, Serving(r, supply)) && SameRequest(r, again)
    requires ServedBefore(steps, supply.now + TERMINAL_RETENTION) && supply'.now < supply.now + TERMINAL_RETENTION
    requires FinanceValid(After(Handle(db, r, supply).0, steps).ledger.access, r.ctx)
    ensures var later := After(Handle(db, r, supply).0, steps);
            var (after, reply) := Handle(later, again, supply');
            && after == later
            && match CategoryRefusal(later.ledger, r)
               case Some(e) => reply == Err(e)
               case None => reply.Ok? && reply.value.replayed && SameAnswer(Handle(db, r, supply).1.value.answer, reply.value.answer)
  {
    var (done, reply) := Handle(db, r, supply);
    var later := After(done, steps);
    var outcome, expiry := SuccessOutcome(r.command, reply.value.answer), supply.now + TERMINAL_RETENTION;
    FirstRunIsRemembered(db, r, supply);
    HandleKeepsValid(db, r, supply);
    RunsStayValid(done, steps);
    RunKeepsRecord(done, steps, supply.recordId, expiry);
    AdmittedAgain(db.ledger, later.ledger, r, again);
    if CategoryRefusal(later.ledger, r).Some? {
      RefusedBeforeClaim(later, again, supply');
    } else {
      RememberedIsReplayed(later, again, supply', supply.recordId, outcome, expiry);
      ReplayIsHandled(later, again, supply', later.records[supply.recordId]);
      RunsOnlyMoveForward(done, steps);
      SuccessIsAnsweredAgain(done.ledger.events, later.ledger, r.ctx, r.command, reply.value.answer);
    }
  }

  lemma RefusedBeforeClaim(db: Db, r: Request, supply: Supply)
    requires Admit(db.ledger, r).Err?
    ensures Handle(db, r, supply) == (db, Err(Admit(db.ledger, r).error))
  {
  }

  lemma FailureIsRemembered(db: Db, r: Request, supply: Supply)
    requires DbValid(db) && Handle(db, r, supply).1.Err? && Handle(db, r, supply).0 != db
    ensures Admit(db.ledger, r).Ok? && FailureOutcome(r.command, Handle(db, r, supply).1.error).Some?
    ensures var (after, reply) := Handle(db, r, supply);
            Remembers(after.records, supply.recordId, r, FailureOutcome(r.command, reply.error).value, supply.now + TERMINAL_RETENTION)
  {
    if Admit(db.ledger, r).Err? || !Starts(db, r, supply) {
      NotStartedChangesNothing(db, r, supply);
    } else {
      var (ledger, performed) := Perform(db.ledger, r, Admit(db.ledger, r).value, supply);
      ExecutionEnds(db, r, supply, ledger, performed);
      FailuresAreRecordedOrRolledBack(db.ledger, r, supply);
      FinalRemembers(Claimed(db, r, supply), r, supply, FailureOutcome(r.command, performed.error).value, Failed);
    }
  }

  /** A recorded failure reads back as the exception it was recorded for. */
  lemma FailureReadsBack(c: Command, e: Error, later: Ledger, ctx: Context)
    requires FailureOutcome(c, e).Some? && e != PermissionDenied
    ensures ReplayAnswer(later, ctx, c, FailureOutcome(c, e)) == Err(e)
  {
  }

  lemma FailureIsAnsweredAgain(db: Db, r: Request, supply: Supply, later: Ledger)
    requires DbValid(db) && Admit(db.ledger, r).Ok? && Handle(db, r, supply).1.Err?
    requires FailureOutcome(r.command, Handle(db, r, supply).1.error).Some? && Starts(db, r, supply)
    ensures var e := Handle(db, r, supply).1.error;
            ReplayAnswer(later, r.ctx, r.command, FailureOutcome(r.command, e)) == Err(e)
  {
    var (ledger, performed) := Perform(db.ledger, r, Admit(db.ledger, r).value, supply);
    ExecutionEnds(db, r, supply, ledger, performed);
    AdministratorsAreNotDenied(db.ledger, r, supply);
    FailureReadsBack(r.command, performed.error, later, r.ctx);
  }

  lemma AdministratorsAreNotDenied(l: Ledger, r: Request, supply: Supply)
    requires Admit(l, r).Ok? && !r.command.CreateManual?
    ensures Perform(l, r, Admit(l, r).value, supply).1 != Err(PermissionDenied)
  {
  }

  /**
   A failure that was committed fails alike within retention, even when its cause is gone: a stale
   version stays stale although the header is no part of the request's identity.
   */
  lemma FailuresRepeat(db: Db, r: Request, supply: Supply, steps: seq<Step>, again: Request, supply': Supply)
    requires DbValid(db) && Handle(db, r, supply).1.Err? && Handle(db, r, supply).0 != db && SameRequest(r, again)
    requires ServedBefore(steps, supply.now + TERMINAL_RETENTION) && supply'.now < supply.now + TERMINAL_RETENTION
    requires MemberValid(After(Handle(db, r, supply).0, steps).ledger.access, r.ctx)
    ensures var later := After(Handle(db, r, supply).0, steps);
            Handle(later, again, supply')
            == (later, Err(match CategoryRefusal(later.ledger, r) case Some(e) => e case None => Handle(db, r, supply).1.error))
  {
    var (done, reply) := Handle(db, r, supply);
    var later := After(done, steps);
    var expiry := supply.now + TERMINAL_RETENTION;
    if !Starts(db, r, supply) {
      NotStartedChangesNothing(db, r, supply);
    }
    FailureIsRemembered(db, r, supply);
    var outcome := FailureOutcome(r.command, reply.error).value;
    HandleKeepsValid(db, r, supply);
    RunsStayValid(done, steps);
    RunKeepsRecord(done, steps, supply.recordId, expiry);
    AdmittedAgain(db.ledger, later.ledger, r, again);
    if CategoryRefusal(later.ledger, r).Some? {
      RefusedBeforeClaim(later, again, supply');
    } else {
      RememberedIsReplayed(later, again, supply', supply.recordId, outcome, expiry);
      ReplayIsHandled(later, again, supply', later.records[supply.recordId]);
      FailureIsAnsweredAgain(db, r, supply, later.ledger);
    }
  }

  /** A claim that meets an expired record of its own starts over, or is refused by the database. */
  lemma ExpiredClaimsStartOver(records: Records, access: Access, r: Request, supply: Supply, k: Uuid,
                               outcome: SafeOutcome, expiry: Instant)
    requires RecordsValid(records) && Remembers(records, k, r, outcome, expiry) && expiry <= supply.now
    ensures var begun := Claim(records, access, r.ctx, MetadataOf(r), supply).1;
            begun.Ok? ==> begun.value.disposition == Started
  {
  }

  lemma RefusedClaimsFail(db: Db, r: Request, supply: Supply)
    requires Claim(db.records, db.ledger.access, r.ctx, MetadataOf(r), supply).1.Err?
    ensures Handle(db, r, supply).1.Err?
  {
  }

  lemma ExpiredIsNotReplayed(db: Db, r: Request, supply: Supply, k: Uuid, outcome: SafeOutcome, expiry: Instant)
    requires DbValid(db) && Remembers(db.records, k, r, outcome, expiry) && expiry <= supply.now
    ensures Handle(db, r, supply).1.Ok? ==> TakesEffect(db, Serving(r, supply))
  {
    ExpiredClaimsStartOver(db.records, db.ledger.access, r, supply, k, outcome, expiry);
    if Admit(db.ledger, r).Err? {
      RefusedBeforeClaim(db, r, supply);
    } else if Starts(db, r, supply) {
      var (ledger, performed) := Perform(db.ledger, r, Admit(db.ledger, r).value, supply);
      ExecutionEnds(db, r, supply, ledger, performed);
    } else {
      RefusedClaimsFail(db, r, supply);
    }
  }

  /**
   Retention is exact: while its category fits and its context is valid, the repeated request succeeds
   until its record expires and never again after that.
   */
  lemma RetentionIsExact(db: Db, r: Request, supply: Supply, steps: seq<Step>, again: Request, supply': Supply)
    requires DbValid(db) && TakesEffect(db, Serving(r, supply)) && SameRequest(r, again)
    requires ServedBefore(steps, supply.now + TERMINAL_RETENTION)
    requires FinanceValid(After(Handle(db, r, supply).0, steps).ledger.access, r.ctx)
    requires CategoryRefusal(After(Handle(db, r, supply).0, steps).ledger, r).None?
    ensures Handle(After(Handle(db, r, supply).0, steps), again, supply').1.Ok? <==> supply'.now < supply.now + TERMINAL_RETENTION
  {
    var done := Handle(db, r, supply).0;
    var later := After(done, steps);
    if supply'.now < supply.now + TERMINAL_RETENTION {
      ReplaysAreFaithful(db, r, supply, steps, again, supply');
    } else {
      FirstRunIsRemembered(db, r, supply);
      HandleKeepsValid(db, r, supply);
      RunsStayValid(done, steps);
      RunKeepsRecord(done, steps, supply.recordId, supply.now + TERMINAL_RETENTION);
      ExpiredIsNotReplayed(later, again, supply', supply.recordId, SuccessOutcome(r.command, Handle(db, r, supply).1.value.answer), supply.now + TERMINAL_RETENTION);
      RunsOnce(db, r, supply, steps, again, supply');
    }
  }

  lemma RunsOnce(db: Db, r: Request, supply: Supply, steps: seq<Step>, again: Request, supply': Supply)
    requires DbValid(db) && TakesEffect(db, Serving(r, supply)) && SameRequest(r, again)
    ensures !TakesEffect(After(Handle(db, r, supply).0, steps), Serving(again, supply'))
  {
    var all := [Serving(r, supply)] + steps + [Serving(again, supply')];
    var n := |steps| + 1;
    assert all[..0] == [] && all[0] == Serving(r, supply) && all[n] == Serving(again, supply');
    assert all[..1] == [Serving(r, supply)] && all[1..n] == steps;
    RunSplits(Next, db, all, 1, n);
    RunOneMore(Next, db, all, 0);
    AtMostOnce(db, all, 0, n);
  }

  // ---- Keys and operation ids --------------------------------------------------------------

  /** A key answers for one request of one member; everybody else is turned away and changes nothing. */
  lemma KeysBelongToOneRequest(db: Db, r: Request, supply: Supply, k: Uuid)
    requires DbValid(db) && IsSelected(db.records, OperationOf(r.command), r.keyDigest, k)
    requires Admit(db.ledger, r).Ok? && MemberValid(db.ledger.access, r.ctx)
    requires var s := db.records[k];
             s.actor != r.ctx.membership || s.operationId != r.operationId || s.fingerprint != r.fingerprint
    ensures Handle(db, r, supply) == (db, Err(if db.records[k].actor != r.ctx.membership then NotFound else KeyReused))
  {
    AdmittedMayClaim(db.ledger, r);
    assert Collide(db.records[k], NewRecord(r.ctx, MetadataOf(r), supply));
  }

  /** An operation id that is recorded under one key never starts a command under another. */
  lemma OperationIdsBelongToOneKey(db: Db, r: Request, supply: Supply, k: Uuid)
    requires DbValid(db) && k in db.records && db.records[k].operationId == r.operationId
    requires !InScope(db.records[k], OperationOf(r.command), r.keyDigest)
    ensures Handle(db, r, supply).0 == db && Handle(db, r, supply).1.Err?
  {
    assert Collide(db.records[k], NewRecord(r.ctx, MetadataOf(r), supply));
    if Admit(db.ledger, r).Err? {
      AdmissionErrors(db.ledger, r);
    } else if ClaimantError(db.ledger.access, r.ctx, OperationOf(r.command)).None? {
      var found := Select(db.records, OperationOf(r.command), r.keyDigest);
      if found.Some? {
        assert !Collide(db.records[found.value], db.records[k]);
      }
    }
  }
}
