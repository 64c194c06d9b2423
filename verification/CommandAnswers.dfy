/**
 What a finance request is answered before and around its execution, told in fields a caller can look up:
 which submissions are turned away and why, what a claim meets under its key, and when a record is
 finished. The conditions are written out here on their own, apart from the checks the services share.
 */
module CommandAnswers {
  import opened Common
  import opened Ledger
  import opened LedgerAnswers
  import opened Idempotency
  import opened Commands
  import opened CommandSafety
  import opened CommandRuns
  import opened LedgerSafety
  import opened LedgerHistory
  import MoneyModel

  // ---- Submissions -------------------------------------------------------------------------

  /** Absent, or of an allowed length and without control characters. */
  predicate Legible(text: Option<string>, maximum: nat) {
    text.Some? ==> 1 <= |text.value| <= maximum && forall c :: c in text.value ==> c as int >= 32 && c as int != 127
  }

  predicate TextsLegible(m: Manual) {
    Legible(m.counterparty, 256) && Legible(m.reference, 128) && Legible(m.notes, 2000)
  }

  predicate Payable(m: Manual) {
    MoneyModel.Submitted(m.amount, m.currencyCode).Ok?
  }

  lemma LegibleIsAcceptable(text: Option<string>, maximum: nat)
    ensures AcceptableText(text, maximum) <==> Legible(text, maximum)
  {
    if text.Some? && HasControlCharacter(text.value) {
      var i :| 0 <= i < |text.value| && (text.value[i] < ' ' || text.value[i] == 127 as char);
      assert text.value[i] in text.value;
    }
  }

  lemma LegibleTexts(m: Manual)
    ensures AcceptableTexts(m) <==> TextsLegible(m)
  {
    LegibleIsAcceptable(m.counterparty, 256);
    LegibleIsAcceptable(m.reference, 128);
    LegibleIsAcceptable(m.notes, 2000);
  }

  /** A submission's amount and texts are looked at before anything is looked up. */
  lemma CreationIsAdmitted(l: Ledger, r: Request, m: Manual)
    requires r.command == CreateManual(m)
    ensures var admitted := Admit(l, r);
            var wellFormed := Payable(m) && TextsLegible(m);
            && (admitted == Err(PermissionDenied) <==> r.ctx.role == Advisor)
            && (admitted == Err(InvalidRequest) <==> r.ctx.role != Advisor && !wellFormed)
            && (admitted == Err(NotFound) <==>
                r.ctx.role != Advisor && wellFormed && (!LetIn(l.access, r.ctx) || !Usable(l.categories, m.categoryId)))
            && (admitted == Err(InvalidCategory) <==>
                r.ctx.role != Advisor && wellFormed && LetIn(l.access, r.ctx) && Usable(l.categories, m.categoryId)
                && Misfits(l.categories[m.categoryId], m.kind, m.activity))
            && (admitted.Ok? <==>
                r.ctx.role != Advisor && wellFormed && LetIn(l.access, r.ctx) && Usable(l.categories, m.categoryId)
                && !Misfits(l.categories[m.categoryId], m.kind, m.activity))
  {
    LegibleTexts(m);
  }

  /** A replacement's category is judged like a creation's, but before its texts. */
  lemma ReplacementIsAdmitted(l: Ledger, r: Request, m: Manual)
    requires r.command.Correct? && r.command.replacement == Some(m) && r.ctx.role == Admin && r.command.confirmed
    ensures var admitted := Admit(l, r);
            var usable := LetIn(l.access, r.ctx) && Usable(l.categories, m.categoryId);
            && (admitted == Err(NotFound) <==> Payable(m) && !usable)
            && (admitted == Err(InvalidCategory) <==> Payable(m) && usable && Misfits(l.categories[m.categoryId], m.kind, m.activity))
            && (admitted == Err(InvalidRequest) <==>
                !Payable(m) || (usable && !Misfits(l.categories[m.categoryId], m.kind, m.activity) && !TextsLegible(m)))
            && (admitted.Ok? <==> Payable(m) && usable && !Misfits(l.categories[m.categoryId], m.kind, m.activity) && TextsLegible(m))
  {
    LegibleTexts(m);
  }

  /** The explained reasons of a rejection, and the one reason of an approval. */
  predicate Reasoned(decision: Decision, reason: Reason, explanation: Option<string>) {
    match decision
    case Approve => reason == ReviewedAndConfirmed && explanation == None
    case Reject =>
      && reason !in {AdminCreated, CorrectionReplacement, ReviewedAndConfirmed, EnteredInError, IncorrectClassification, IncorrectPaymentMethod}
      && explanation != None && Legible(explanation, 512)
  }

  /** The other commands are for Admins, and ask for a confirmation or for a reason that fits the decision. */
  lemma OthersAreAdmitted(l: Ledger, r: Request)
    requires !r.command.CreateManual?
    ensures var admitted := Admit(l, r);
            var meant := match r.command
                         case Decide(_, decision, reason, explanation) => Reasoned(decision, reason, explanation)
                         case Reverse(_, _, _, confirmed) => confirmed
                         case Correct(_, _, _, confirmed, _) => confirmed
                         case Archive(_, _, confirmed) => confirmed;
            && (admitted == Err(PermissionDenied) ==> r.ctx.role != Admin)
            && (r.ctx.role != Admin ==> admitted == Err(PermissionDenied))
            && (r.ctx.role == Admin && !meant ==> admitted == Err(InvalidRequest))
            && (r.ctx.role == Admin && meant && (r.command.Correct? ==> r.command.replacement == None) ==> admitted.Ok?)
  {
    if r.command.Decide? {
      ReasonedIsWellFormed(r.command.decision, r.command.decisionReason, r.command.explanation);
    }
  }

  lemma ReasonedIsWellFormed(decision: Decision, reason: Reason, explanation: Option<string>)
    ensures DecisionWellFormed(decision, reason, explanation) <==> Reasoned(decision, reason, explanation)
  {
    LegibleIsAcceptable(explanation, 512);
  }

  // ---- Claims ------------------------------------------------------------------------------

  /** Creations are for Admins and Contributors, all the rest is for Admins. */
  predicate Allowed(role: Role, operation: Operation) {
    role == Admin || (role == Contributor && operation == CreateOperation)
  }

  predicate IsMember(access: Access, ctx: Context) {
    ctx.membership in access.members && access.members[ctx.membership] == ctx.role
  }

  /** A record stands under an operation and a key. */
  predicate Under(records: Records, k: Uuid, meta: Metadata) {
    k in records && records[k].operation == meta.operation && records[k].keyDigest == meta.keyDigest
  }

  /** Another record than `k` has one of the new record's identifiers. */
  ghost predicate Taken(records: Records, meta: Metadata, recordId: Uuid, besides: set<Uuid>) {
    exists j :: j in records && j !in besides
                && (records[j].id == recordId || records[j].operationId == meta.operationId
                    || (records[j].operation == meta.operation && records[j].keyDigest == meta.keyDigest))
  }

  /** A started claim's record: in progress under a two-minute lease. */
  function Leased(ctx: Context, meta: Metadata, supply: Supply): Record {
    Record(supply.recordId, ctx.membership, meta.operationId, meta.operation, meta.keyDigest, meta.fingerprint, InProgress,
           Some(supply.leaseToken), Some(supply.now + 120 * SECOND), None, supply.now, supply.now, None, None)
  }

  lemma StrangersClaimNothing(records: Records, access: Access, ctx: Context, meta: Metadata, supply: Supply)
    requires !IsMember(access, ctx) || !Allowed(ctx.role, meta.operation)
    ensures Claim(records, access, ctx, meta, supply) == (records, Err(if IsMember(access, ctx) then PermissionDenied else NotFound))
  {
  }

  lemma UntakenIsInsertable(records: Records, ctx: Context, meta: Metadata, supply: Supply)
    ensures Insertable(records, NewRecord(ctx, meta, supply)) <==> !Taken(records, meta, supply.recordId, {})
  {
    var r := NewRecord(ctx, meta, supply);
    if !Taken(records, meta, supply.recordId, {}) {
      forall k | k in records ensures !Collide(records[k], r) {
      }
    } else {
      var j :| j in records && (records[j].id == supply.recordId || records[j].operationId == meta.operationId
                                || (records[j].operation == meta.operation && records[j].keyDigest == meta.keyDigest));
      assert Collide(records[j], r);
    }
  }

  /** Under a key nobody has used, a claim starts exactly when its identifiers are new, too. */
  lemma FreshKeyClaims(records: Records, access: Access, ctx: Context, meta: Metadata, supply: Supply)
    requires IsMember(access, ctx) && Allowed(ctx.role, meta.operation) && forall k :: !Under(records, k, meta)
    ensures Claim(records, access, ctx, meta, supply)
            == if Taken(records, meta, supply.recordId, {}) then (records, Err(KeyReused))
               else (records[supply.recordId := Leased(ctx, meta, supply)],
                     Ok(IdempotencyClaim(supply.recordId, Started, InProgress, Some(supply.leaseToken), None)))
  {
    UntakenIsInsertable(records, ctx, meta, supply);
    var found := Select(records, meta.operation, meta.keyDigest);
    if found.Some? {
      assert Under(records, found.value, meta);
      assert false;
    }
  }

  lemma KeyIsSelected(records: Records, meta: Metadata, k: Uuid)
    requires RecordsValid(records) && Under(records, k, meta)
    ensures Select(records, meta.operation, meta.keyDigest) == Some(k)
  {
    var found := Select(records, meta.operation, meta.keyDigest);
    assert IsSelected(records, meta.operation, meta.keyDigest, k);
    assert Collide(records[found.value], records[k]);
  }

  /** Under a key in use, the record says what the claim gets: its own actor's and request's, finished or not, expired or not. */
  lemma UsedKeyClaims(records: Records, access: Access, ctx: Context, meta: Metadata, supply: Supply, k: Uuid)
    requires RecordsValid(records) && IsMember(access, ctx) && Allowed(ctx.role, meta.operation) && Under(records, k, meta)
    ensures var s := records[k];
            Claim(records, access, ctx, meta, supply)
            == if s.actor != ctx.membership then (records, Err(NotFound))
               else if s.operationId != meta.operationId || s.fingerprint != meta.fingerprint then (records, Err(KeyReused))
               else if s.state == InProgress then
                 (records, Ok(IdempotencyClaim(k, if s.leaseExpiresAt.value > supply.now then StillInProgress else NeedsRecovery, InProgress, s.leaseToken, None)))
               else if s.expiresAt.value > supply.now then (records, Ok(IdempotencyClaim(k, Replay, s.state, None, s.outcome)))
               else if Taken(records, meta, supply.recordId, {k}) then (records, Err(IntegrityViolation))
               else ((records - {k})[supply.recordId := Leased(ctx, meta, supply)],
                     Ok(IdempotencyClaim(supply.recordId, Started, InProgress, Some(supply.leaseToken), None)))
  {
    var r := NewRecord(ctx, meta, supply);
    KeyIsSelected(records, meta, k);
    assert RecordChecks(records[k]) && records[k].id == k;
    assert Collide(records[k], r);
    assert !Insertable(records, r);
    UntakenIsInsertable(records - {k}, ctx, meta, supply);
    TakenBesides(records, meta, supply.recordId, k);
  }

  lemma TakenBesides(records: Records, meta: Metadata, recordId: Uuid, k: Uuid)
    ensures Taken(records - {k}, meta, recordId, {}) <==> Taken(records, meta, recordId, {k})
  {
    var rest := records - {k};
    assert forall j :: j in rest <==> j in records && j !in {k};
    assert forall j :: j in rest ==> rest[j] == records[j];
  }

  /** Finishing is for the holder of the lease; it records the outcome for fourteen days. */
  lemma FinishAnswers(records: Records, access: Access, ctx: Context, operation: Operation, claimId: Uuid,
                      leaseToken: Uuid,
                      outcome: SafeOutcome, state: State, now: Instant)
    ensures var (after, r) := Finish(records, access, ctx, operation, claimId, leaseToken, outcome, state, now);
            var welcome := IsMember(access, ctx) && Allowed(ctx.role, operation);
            var own := claimId in records && records[claimId].actor == ctx.membership;
            var held := own && records[claimId].state == InProgress && records[claimId].leaseToken == Some(leaseToken);
            && (r == Err(PermissionDenied) <==> IsMember(access, ctx) && !Allowed(ctx.role, operation))
            && (r == Err(NotFound) <==> !IsMember(access, ctx) || (welcome && !own))
            && (r == Err(LeaseConflict) <==> welcome && own && !held)
            && (r.Ok? <==> welcome && held)
            && (r.Err? ==> after == records)
            && (r.Ok? ==>
                  var s := records[claimId];
                  && r.value == IdempotencyClaim(s.id, Replay, state, None, Some(outcome))
                  && after == records[claimId :=
                       Record(s.id, s.actor, s.operationId, s.operation, s.keyDigest, s.fingerprint, state, None, None, Some(outcome),
                              s.createdAt, now, Some(now), Some(now + 14 * 24 * HOUR))])
  {
  }

  // ---- What takes effect -------------------------------------------------------------------

  /** The row a submission becomes. */
  predicate Submits(e: Event, m: Manual, id: Uuid, operationId: Uuid, ctx: Context, now: Instant) {
    && e.id == id && e.kind == m.kind && e.direction == (if m.kind == ManualIncome then Inflow else Outflow)
    && e.activity == m.activity && e.occurredOn == m.occurredOn && e.categoryId == m.categoryId
    && MoneyModel.Submitted(m.amount, m.currencyCode) == Ok((e.amount, e.currency))
    && e.paymentMethod == m.paymentMethod && e.counterparty == m.counterparty && e.reference == m.reference && e.notes == m.notes
    && e.operationId == operationId && e.createdBy == ctx.membership && e.updatedBy == ctx.membership
    && e.createdAt == now && e.updatedAt == now && e.version == 1
    && e.archivedAt == None && e.archivedBy == None && e.archiveReason == None
  }

  /** Counted at once, on the word of one member and for one reason. */
  predicate CountsAtOnce(e: Event, ctx: Context, now: Instant, reason: Reason) {
    && e.approval == Approved && e.posting == Effective && e.reviewedBy == Some(ctx.membership) && e.reviewedAt == Some(now)
    && e.decisionReason == Some(reason) && e.decisionExplanation == None
  }

  predicate AwaitsDecision(e: Event) {
    e.approval == Pending && e.posting == NotEffective && e.reviewedBy == None && e.reviewedAt == None && e.decisionReason == None && e.decisionExplanation == None
  }

  /** Touched by a member at a time, one version up. */
  function Touched(e: Event, ctx: Context, now: Instant): Event {
    e.(updatedBy := ctx.membership, updatedAt := now, version := e.version + 1)
  }

  /** A creation that takes effect adds one row: what was submitted. */
  lemma CreationEffect(db: Db, r: Request, supply: Supply)
    requires DbValid(db) && TakesEffect(db, Serving(r, supply)) && r.command.CreateManual?
    ensures var rows, after := db.ledger.events, Handle(db, r, supply).0.ledger.events;
            && supply.eventId !in rows && supply.eventId in after && after == rows[supply.eventId := after[supply.eventId]]
            && (var e := after[supply.eventId];
                && Handle(db, r, supply).1 == Ok(Reply(OneEvent(e), false))
                && Submits(e, r.command.manual, supply.eventId, r.operationId, r.ctx, supply.now)
                && e.reverses == None && e.replacementFor == None
                && if r.ctx.role == Admin then CountsAtOnce(e, r.ctx, supply.now, AdminCreated) else AwaitsDecision(e))
  {
    EffectiveRequestsPerform(db, Serving(r, supply));
    var action := Admit(db.ledger, r).value;
    SubmissionsAreStored(db.ledger, r.ctx, r.operationId, action.draft, supply.now, supply.eventId);
  }

  /** A decision that takes effect changes the one row it is about. */
  lemma DecisionEffect(db: Db, r: Request, supply: Supply)
    requires DbValid(db) && TakesEffect(db, Serving(r, supply)) && r.command.Decide?
    ensures var rows, c := db.ledger.events, r.command;
            && c.eventId in rows
            && (var e := rows[c.eventId];
                var f := Touched(e, r.ctx, supply.now).(
                  approval := if c.decision == Approve then Approved else Rejected,
                  posting := if c.decision == Approve then Effective else NotEffective,
                  reviewedBy := Some(r.ctx.membership), reviewedAt := Some(supply.now),
                  decisionReason := Some(c.decisionReason), decisionExplanation := c.explanation);
                && Handle(db, r, supply).0.ledger.events == rows[c.eventId := f]
                && Handle(db, r, supply).1 == Ok(Reply(OneEvent(f), false)))
  {
    EffectiveRequestsPerform(db, Serving(r, supply));
    var c := r.command;
    DecidedRow(db.ledger, r.ctx, c.eventId, c.decision, c.decisionReason, c.explanation, supply.now);
  }

  lemma DecidedRow(l: Ledger, ctx: Context, id: Uuid, decision: Decision, reason: Reason, explanation: Option<string>,
                   now: Instant)
    requires WellKeyed(l.events) && DecidePendingEvent(l, ctx, id, decision, reason, explanation, now).1.Ok?
    ensures id in l.events
    ensures var f := Touched(l.events[id], ctx, now).(
              approval := if decision == Approve then Approved else Rejected, posting := if decision == Approve then Effective else NotEffective,
              reviewedBy := Some(ctx.membership), reviewedAt := Some(now), decisionReason := Some(reason), decisionExplanation := explanation);
            DecidePendingEvent(l, ctx, id, decision, reason, explanation, now) == (l.(events := l.events[id := f]), Ok(f))
  {
    DecisionWrote(l, ctx, id, decision, reason, explanation, now);
    assert l.events[id].id == id;
  }

  /** Archiving that takes effect changes the one row it is about. */
  lemma ArchiveEffect(db: Db, r: Request, supply: Supply)
    requires DbValid(db) && TakesEffect(db, Serving(r, supply)) && r.command.Archive?
    ensures var rows, c := db.ledger.events, r.command;
            && c.eventId in rows && rows[c.eventId].version == r.expectedVersion
            && (var f := Touched(rows[c.eventId], r.ctx, supply.now).(
                  archivedAt := Some(supply.now), archivedBy := Some(r.ctx.membership), archiveReason := Some(c.reason));
                && Handle(db, r, supply).0.ledger.events == rows[c.eventId := f]
                && Handle(db, r, supply).1 == Ok(Reply(OneEvent(f), false)))
  {
    EffectiveRequestsPerform(db, Serving(r, supply));
    ArchiveIsAdmitted(db.ledger, r);
    ArchivePerformed(db.ledger, r, r.command.eventId, r.command.reason, supply);
  }

  lemma ArchiveIsAdmitted(l: Ledger, r: Request)
    requires r.command.Archive? && Admit(l, r).Ok?
    ensures Admit(l, r).value == ArchiveAction(r.command.eventId, r.command.reason)
  {
  }

  lemma ArchivePerformed(l: Ledger, r: Request, id: Uuid, reason: Reason, supply: Supply)
    requires WellKeyed(l.events) && LinksPresent(l.events) && ReversalsSound(l.events) && Perform(l, r, ArchiveAction(id, reason), supply).1.Ok?
    ensures id in l.events && l.events[id].version == r.expectedVersion
    ensures var f := Touched(l.events[id], r.ctx, supply.now).(
              archivedAt := Some(supply.now), archivedBy := Some(r.ctx.membership), archiveReason := Some(reason));
            Perform(l, r, ArchiveAction(id, reason), supply) == (l.(events := l.events[id := f]), Ok(OneEvent(f)))
  {
    ArchivedRow(l, r.ctx, id, r.expectedVersion, reason, supply.now);
    ArchiveAnswers(l, r.ctx, id, r.expectedVersion, reason, supply.now);
  }

  lemma ArchivedRow(l: Ledger, ctx: Context, id: Uuid, version: int, reason: Reason, now: Instant)
    requires WellKeyed(l.events) && LinksPresent(l.events) && ReversalsSound(l.events) && ArchiveEvent(l, ctx, id, version, reason, now).1.Ok?
    ensures id in l.events
    ensures var f := Touched(l.events[id], ctx, now).(archivedAt := Some(now), archivedBy := Some(ctx.membership), archiveReason := Some(reason));
            ArchiveEvent(l, ctx, id, version, reason, now) == (l.(events := l.events[id := f]), Ok(f))
  {
    ArchiveWrote(l, ctx, id, version, reason, now);
  }

  /** The reversal of an event: everything it says, on the other side, counted at once. */
  predicate Reverses(e: Event, original: Event, id: Uuid, occurredOn: int, r: Request, now: Instant) {
    && e.id == id && e.kind == (if original.direction == Inflow then ManualExpense else ManualIncome)
    && e.direction == (if original.direction == Inflow then Outflow else Inflow)
    && e.activity == original.activity && e.occurredOn == occurredOn && e.categoryId == original.categoryId
    && e.amount == original.amount && e.currency == original.currency && e.paymentMethod == original.paymentMethod
    && e.counterparty == original.counterparty && e.reference == original.reference && e.notes == original.notes
    && e.operationId == r.operationId && e.createdBy == r.ctx.membership && e.updatedBy == r.ctx.membership
    && e.createdAt == now && e.updatedAt == now && e.version == 1
    && e.archivedAt == None && e.archivedBy == None && e.archiveReason == None
    && e.reverses == Some(original.id) && e.replacementFor == None
  }

  /** What a draft has of a submission. */
  predicate Drafts(d: Draft, m: Manual) {
    && d.kind == m.kind && d.activity == m.activity && d.occurredOn == m.occurredOn && d.categoryId == m.categoryId
    && MoneyModel.Submitted(m.amount, m.currencyCode) == Ok((d.amount, d.currency))
    && d.paymentMethod == m.paymentMethod && d.counterparty == m.counterparty && d.reference == m.reference && d.notes == m.notes
  }

  /** The replacement a command submits; a plain reversal submits none. */
  function ReplacementOfCommand(c: Command): Option<Manual> {
    match c
    case Correct(_, _, _, _, replacement) => replacement
    case _ => None
  }

  predicate ArgsOf(a: ReversalArgs, r: Request)
    requires r.command.Reverse? || r.command.Correct?
  {
    && a.eventId == r.command.eventId && a.operationId == r.operationId && a.derivedOperationId == r.derivedOperationId
    && a.occurredOn == r.command.occurredOn && a.reason == r.command.reason
    && (a.replacement.Some? <==> ReplacementOfCommand(r.command).Some?)
    && (a.replacement.Some? ==> Drafts(a.replacement.value, ReplacementOfCommand(r.command).value))
  }

  lemma AdmittedArgs(l: Ledger, r: Request)
    requires Admit(l, r).Ok? && (r.command.Reverse? || r.command.Correct?)
    ensures Admit(l, r).value.ReverseAction? && ArgsOf(Admit(l, r).value.args, r)
  {
  }

  lemma PlannedRows(original: Event, r: Request, a: ReversalArgs, supply: Supply)
    requires (r.command.Reverse? || r.command.Correct?) && ArgsOf(a, r) && original.id == a.eventId
    ensures var (reversal, replacement, flipped) := PlannedReversal(original, r.ctx, a, supply);
            && Reverses(reversal, original, supply.eventId, r.command.occurredOn, r, supply.now)
            && CountsAtOnce(reversal, r.ctx, supply.now, r.command.reason)
            && flipped == Touched(original, r.ctx, supply.now).(posting := Reversed)
            && (replacement.Some? <==> ReplacementOfCommand(r.command).Some?)
            && (replacement.Some? ==> Replaces(replacement.value, r, supply))
  {
  }

  /** The replacement row: what was submitted with the correction, counted at once in the original's place. */
  predicate Replaces(e: Event, r: Request, supply: Supply)
    requires (r.command.Reverse? || r.command.Correct?) && ReplacementOfCommand(r.command).Some?
  {
    && Submits(e, ReplacementOfCommand(r.command).value, supply.secondEventId, r.derivedOperationId, r.ctx, supply.now)
    && CountsAtOnce(e, r.ctx, supply.now, CorrectionReplacement)
    && e.reverses == None && e.replacementFor == Some(r.command.eventId)
  }

  /** What a reversal or correction has written and answered. */
  ghost predicate Corrected(rows: Rows, after: Rows, answer: Result<Reply, Error>, r: Request, supply: Supply)
    requires r.command.Reverse? || r.command.Correct?
  {
    var c := r.command;
    && c.eventId in rows && rows[c.eventId].version == r.expectedVersion && supply.eventId !in rows && supply.eventId in after
    && var flipped, reversal := Touched(rows[c.eventId], r.ctx, supply.now).(posting := Reversed), after[supply.eventId];
       && Reverses(reversal, rows[c.eventId], supply.eventId, c.occurredOn, r, supply.now) && CountsAtOnce(reversal, r.ctx, supply.now, c.reason)
       && match ReplacementOfCommand(c)
          case None =>
            && after == rows[supply.eventId := reversal][c.eventId := flipped]
            && answer == Ok(Reply(WholeLifecycle(Lifecycle(flipped, Some(reversal), None)), false))
          case Some(_) =>
            && supply.secondEventId !in rows && supply.secondEventId != supply.eventId && supply.secondEventId in after
            && var replacement := after[supply.secondEventId];
               && after == rows[supply.eventId := reversal][supply.secondEventId := replacement][c.eventId := flipped]
               && Replaces(replacement, r, supply)
               && answer == Ok(Reply(WholeLifecycle(Lifecycle(flipped, Some(reversal), Some(replacement))), false))
  }

  lemma PlannedIsCorrected(l: Ledger, r: Request, a: ReversalArgs, supply: Supply)
    requires RowsValid(l.events, l.categories) && (r.command.Reverse? || r.command.Correct?) && ArgsOf(a, r)
    requires ReverseEvent(l, r.ctx, a, r.expectedVersion, supply).1.Ok?
    ensures var (after, found) := ReverseEvent(l, r.ctx, a, r.expectedVersion, supply);
            Corrected(l.events, after.events, Ok(Reply(WholeLifecycle(found.value), false)), r, supply)
  {
    ReverseWrote(l, r.ctx, a, r.expectedVersion, supply);
    PlannedRows(l.events[a.eventId], r, a, supply);
  }

  /** A reversal or correction that takes effect flips its original and adds its reversal, and the replacement if one is submitted. */
  lemma CorrectionEffect(db: Db, r: Request, supply: Supply)
    requires DbValid(db) && TakesEffect(db, Serving(r, supply)) && (r.command.Reverse? || r.command.Correct?)
    ensures Corrected(db.ledger.events, Handle(db, r, supply).0.ledger.events, Handle(db, r, supply).1, r, supply)
  {
    EffectiveRequestsPerform(db, Serving(r, supply));
    AdmittedArgs(db.ledger, r);
    PlannedIsCorrected(db.ledger, r, Admit(db.ledger, r).value.args, supply);
  }

  // ---- What is recorded --------------------------------------------------------------------

  /** The finished record of a request, with its outcome, kept for fourteen days. */
  function Kept(r: Request, operation: Operation, outcome: SafeOutcome, state: State, supply: Supply): Record {
    Record(supply.recordId, r.ctx.membership, r.operationId, operation, r.keyDigest, r.fingerprint, state, None, None, Some(outcome),
           supply.now, supply.now, Some(supply.now), Some(supply.now + 14 * 24 * HOUR))
  }

  /** Which operation a command is, and how its success is coded. */
  function Coded(c: Command): (Operation, OutcomeCode) {
    match c
    case CreateManual(_) => (CreateOperation, CreatedCode)
    case Decide(_, decision, _, _) => if decision == Approve then (ApproveOperation, ApprovedCode) else (RejectOperation, RejectedCode)
    case Reverse(_, _, _, _) => (ReverseOperation, ReversedCode)
    case Correct(_, _, _, _, _) => (CorrectOperation, CorrectedCode)
    case Archive(_, _, _) => (ArchiveOperation, ArchivedCode)
  }

  /** A success is recorded with the event it answered: as created, or as changed. */
  lemma SuccessIsRecorded(db: Db, r: Request, supply: Supply)
    requires DbValid(db) && TakesEffect(db, Serving(r, supply))
    ensures var (after, reply) := Handle(db, r, supply);
            var e := if reply.value.answer.OneEvent? then reply.value.answer.event else reply.value.answer.result.original;
            var status := if r.command.CreateManual? then 201 else 200;
            supply.recordId in after.records
            && after.records[supply.recordId]
               == Kept(r, Coded(r.command).0, SafeOutcome(Coded(r.command).1, status, Some(FinancialEventResource), Some(e.id), Some(e.version)), Completed, supply)
  {
    EffectiveRequestsPerform(db, Serving(r, supply));
    var answer := Handle(db, r, supply).1.value.answer;
    OutcomeIsCoded(r.command, answer);
    FinalIsKept(r, supply, SuccessOutcome(r.command, answer), Completed);
  }

  lemma FinalIsKept(r: Request, supply: Supply, outcome: SafeOutcome, state: State)
    ensures Final(r, supply, outcome, state) == Kept(r, Coded(r.command).0, outcome, state, supply)
  {
  }

  lemma OutcomeIsCoded(c: Command, a: Answer)
    ensures var e := if a.OneEvent? then a.event else a.result.original;
            SuccessOutcome(c, a)
            == SafeOutcome(Coded(c).1, if c.CreateManual? then 201 else 200, Some(FinancialEventResource), Some(e.id), Some(e.version))
  {
  }

  /** How a failure is recorded: only the ones a repetition should meet again, and never for a creation. */
  function FailureCoded(c: Command, e: Error): Option<(OutcomeCode, int)> {
    if c.CreateManual? then None
    else match e
      case NotFound => Some((ResourceNotFoundCode, 404))
      case VersionMismatch => if c.Decide? then None else Some((VersionMismatchCode, 412))
      case StateConflict => if c.Decide? then Some((InvalidStateTransitionCode, 409)) else None
      case LifecycleConflict => if c.Decide? then None else Some((InvalidStateTransitionCode, 409))
      case _ => None
  }

  /** A failed execution keeps the ledger, and commits a record exactly of these failures; any other is rolled back. */
  lemma FailureIsRecorded(db: Db, r: Request, supply: Supply)
    requires DbValid(db) && Admit(db.ledger, r).Ok? && Starts(db, r, supply) && Handle(db, r, supply).1.Err?
    ensures var (after, reply) := Handle(db, r, supply);
            && after.ledger == db.ledger
            && match FailureCoded(r.command, reply.error)
               case None => after == db
               case Some((code, status)) =>
                 supply.recordId in after.records
                 && after.records[supply.recordId] == Kept(r, Coded(r.command).0, SafeOutcome(code, status, None, None, None), Failed, supply)
  {
    var action := Admit(db.ledger, r).value;
    var (ledger, performed) := Perform(db.ledger, r, action, supply);
    ExecutionEnds(db, r, supply, ledger, performed);
    PerformChangesOnlyEvents(db.ledger, r, action, supply);
    FailuresAreRecordedOrRolledBack(db.ledger, r, supply);
    NoDenialAfterAdmission(db.ledger, r, action, supply);
    FailureIsCoded(r.command, performed.error);
    CommittedFailure(db, r, supply, ledger, performed.error);
  }

  lemma FailureIsCoded(c: Command, e: Error)
    requires e != PermissionDenied && (FailureOutcome(c, e).Some? || RollsBack(e))
    ensures FailureOutcome(c, e)
            == match FailureCoded(c, e)
               case None => None
               case Some((code, status)) => Some(SafeOutcome(code, status, None, None, None))
    ensures RollsBack(e) ==> FailureOutcome(c, e) == None
  {
  }

  lemma CommittedFailure(db: Db, r: Request, supply: Supply, ledger: Ledger, e: Error)
    requires ledger == db.ledger && (FailureOutcome(r.command, e).Some? != RollsBack(e))
    ensures var after := Committed(db, r, supply, ledger, Err(e));
            && after.ledger == db.ledger
            && if RollsBack(e) then after == db
               else supply.recordId in after.records
                    && after.records[supply.recordId] == Kept(r, Coded(r.command).0, FailureOutcome(r.command, e).value, Failed, supply)
  {
    if !RollsBack(e) {
      FinalIsKept(r, supply, FailureOutcome(r.command, e).value, Failed);
    }
  }

  lemma NoDenialAfterAdmission(l: Ledger, r: Request, action: Action, supply: Supply)
    requires Admit(l, r) == Ok(action)
    ensures Perform(l, r, action, supply).1 != Err(PermissionDenied)
  {
  }

  // ---- What a repetition finds -------------------------------------------------------------

  /** The recorded failures a command raises again. */
  function RaisedAgain(c: Command, code: OutcomeCode): Option<Error> {
    if c.CreateManual? then None
    else match code
      case ResourceNotFoundCode => Some(NotFound)
      case VersionMismatchCode => if c.Decide? then None else Some(VersionMismatch)
      case InvalidStateTransitionCode => Some(if c.Decide? then StateConflict else LifecycleConflict)
      case _ => None
  }

  /** The outcome is this command's success, and names the event it is about. */
  predicate Fits(c: Command, o: SafeOutcome) {
    && o.code == Coded(c).1 && o.resourceId.Some?
    && (c.CreateManual? || o.resourceId == Some(c.eventId))
    && (c.CreateManual? || c.Decide? ==> o.resourceType == Some(FinancialEventResource))
  }

  /** The row shows that the command has taken effect on it. */
  predicate Shows(c: Command, e: Event) {
    match c
    case CreateManual(_) => true
    case Decide(_, decision, _, _) => e.approval == if decision == Approve then Approved else Rejected
    case Archive(_, _, _) => e.archivedAt != None
    case _ => true
  }

  /** Whatever a record holds: a repetition raises a recorded failure again, and else needs a fitting outcome, access, and rows that show it. */
  lemma ReplayAnswers(l: Ledger, ctx: Context, c: Command, outcome: Option<SafeOutcome>)
    ensures ReplayAnswer(l, ctx, c, outcome)
            == if outcome.Some? && RaisedAgain(c, outcome.value.code).Some? then Err(RaisedAgain(c, outcome.value.code).value)
               else if outcome == None || !Fits(c, outcome.value) then Err(ReplayUnavailable)
               else if !LetIn(l.access, ctx) then Err(NotFound)
               else
                 var k := outcome.value.resourceId.value;
                 if k !in l.events || !Shows(c, l.events[k]) then Err(ReplayUnavailable)
                 else if c.Reverse? || c.Correct? then
                   (if LifecycleOf(l.events, k).reversal == None then Err(ReplayUnavailable) else Ok(WholeLifecycle(LifecycleOf(l.events, k))))
                 else Ok(OneEvent(l.events[k]))
  {
  }

  /** Only a started claim with its lease is handed on to be finished. */
  lemma OnlyStartedClaimsFinish(records: Records, access: Access, ctx: Context, operation: Operation,
                                claim: IdempotencyClaim,
                                outcome: SafeOutcome, state: State, now: Instant)
    ensures FinishClaim(records, access, ctx, operation, claim, outcome, state, now)
            == if claim.disposition == Started && claim.leaseToken.Some?
               then Finish(records, access, ctx, operation, claim.id, claim.leaseToken.value, outcome, state, now)
               else (records, Err(LeaseConflict))
  {
  }

  // ---- Edits -------------------------------------------------------------------------------

  /** An edit is looked at as a whole before its event is: it has to name something, and name it well. */
  lemma EditIsAdmitted(l: Ledger, ctx: Context, eventId: Uuid, version: int, u: PendingUpdate, now: Instant)
    ensures var nothing := u == PendingUpdate(None, None, None, None, None, None, None, None);
            var payable := u.money.Some? ==> MoneyModel.Submitted(u.money.value.0, u.money.value.1).Ok?;
            var legible := && (u.counterparty.Some? ==> Legible(u.counterparty.value, 256))
                           && (u.reference.Some? ==> Legible(u.reference.value, 128))
                           && (u.notes.Some? ==> Legible(u.notes.value, 2000));
            HandleEdit(l, ctx, eventId, version, u, now)
            == if nothing then (l, Err(InvalidRequest))
               else if ctx.role != Contributor then (l, Err(PermissionDenied))
               else if !payable || !legible then (l, Err(InvalidRequest))
               else
                 var money := if u.money.None? then None else Some(MoneyModel.Submitted(u.money.value.0, u.money.value.1).value);
                 UpdatePendingEvent(l, ctx, eventId, version, Changes(u.activity, u.occurredOn, u.categoryId, money, u.paymentMethod,
                                                                     u.counterparty, u.reference, u.notes), now)
  {
    if u.counterparty.Some? {
      LegibleIsAcceptable(u.counterparty.value, 256);
    }
    if u.reference.Some? {
      LegibleIsAcceptable(u.reference.value, 128);
    }
    if u.notes.Some? {
      LegibleIsAcceptable(u.notes.value, 2000);
    }
  }

  // ---- What is stored ----------------------------------------------------------------------

  /** What one row can show of its own soundness. */
  predicate Sound(e: Event, k: Uuid) {
    && e.id == k && e.version >= 1 && 0 < e.amount < 1_000_000_000_000_000_000_000_000 && e.currency in ["MMK", "JPY", "USD"]
    && (e.direction == Inflow <==> e.kind == ManualIncome)
    && (e.counterparty.Some? ==> 1 <= |e.counterparty.value| <= 256) && (e.reference.Some? ==> 1 <= |e.reference.value| <= 128)
    && (e.notes.Some? ==> 1 <= |e.notes.value| <= 2000)
    && (e.approval == Approved <==> e.posting == Effective || e.posting == Reversed)
    && (e.approval != Pending <==> e.reviewedBy.Some?) && (e.reviewedBy.Some? <==> e.reviewedAt.Some?)
    && (e.reviewedBy.Some? <==> e.decisionReason.Some?) && (e.approval == Rejected <==> e.decisionExplanation.Some?)
    && (e.decisionExplanation.Some? ==> |e.decisionExplanation.value| <= 512)
    && (e.archivedAt.Some? <==> e.archivedBy.Some?) && (e.archivedAt.Some? <==> e.archiveReason.Some?)
    && e.reverses != Some(k) && e.replacementFor != Some(k)
    && (e.reverses.Some? ==> e.approval == Approved && e.posting == Effective && e.archivedAt.None? && e.replacementFor.None?)
  }

  /** What every row of a reachable ledger shows, as far as one row can show it. */
  lemma StoredRowsAreSound(steps: seq<Step>, k: Uuid)
    requires k in After(EMPTY, steps).ledger.events
    ensures Sound(After(EMPTY, steps).ledger.events[k], k)
  {
    EmptyIsValid();
    RunsStayValid(EMPTY, steps);
    RowIsSound(After(EMPTY, steps).ledger.events, k);
  }

  lemma RowIsSound(rows: Rows, k: Uuid)
    requires WellKeyed(rows) && AllChecked(rows) && MoneyExact(rows) && LinksPresent(rows) && ReversalsSound(rows) && k in rows
    ensures Sound(rows[k], k)
  {
    assert Checks(rows[k]) && MoneyModel.StoredExact(rows[k].amount, rows[k].currency);
    if rows[k].reverses.Some? {
      assert Undoes(rows[k], rows[rows[k].reverses.value]);
    }
  }

  /** What every record of a reachable database shows: it is finished, with an outcome that is kept for fourteen days. */
  lemma StoredRecordsAreSound(steps: seq<Step>, k: Uuid)
    requires k in After(EMPTY, steps).records
    ensures var s := After(EMPTY, steps).records[k];
            && s.id == k && s.state != InProgress && s.leaseToken == None && s.leaseExpiresAt == None
            && s.outcome.Some? && 100 <= s.outcome.value.httpStatus <= 599
            && s.completedAt.Some? && s.expiresAt.Some? && s.completedAt.value < s.expiresAt.value
            && (s.outcome.value.resourceId.Some? <==> s.outcome.value.resourceType.Some?)
            && (s.outcome.value.resourceId.Some? <==> s.outcome.value.resourceVersion.Some?)
            && (s.outcome.value.resourceVersion.Some? ==> s.outcome.value.resourceVersion.value >= 1)
  {
    EmptyIsValid();
    RunsStayValid(EMPTY, steps);
    var records := After(EMPTY, steps).records;
    assert RecordChecks(records[k]) && records[k].state != InProgress;
  }
}
