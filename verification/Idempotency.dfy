/**
 Idempotency records: claiming an operation, finishing it under a lease, and replaying its outcome.

 The repository never commits: it works inside its caller's transaction. Its calls are functions of the
 stored records here; the class that makes the writes is at the end.
 */
module Idempotency {
  import opened Common
  import opened Ledger

  datatype Operation = CreateOperation | ApproveOperation | RejectOperation | ReverseOperation | CorrectOperation | ArchiveOperation

  datatype OutcomeCode =
    | CreatedCode | ApprovedCode | RejectedCode | ReversedCode | CorrectedCode | ArchivedCode
    | ResourceNotFoundCode | VersionMismatchCode | InvalidStateTransitionCode

  datatype ResourceType = FinancialEventResource | OtherResource

  /** What a finished command leaves for its replays. */
  datatype SafeOutcome = SafeOutcome(
    code: OutcomeCode,
    httpStatus: int,
    resourceType: Option<ResourceType>,
    resourceId: Option<Uuid>,
    resourceVersion: Option<int>)

  /** Construction refuses an impossible status and a partial or unversioned resource. */
  function NewOutcome(o: SafeOutcome): Result<SafeOutcome, Error> {
    if !(100 <= o.httpStatus <= 599) then Err(InvalidRequest)
    else if (o.resourceType.Some? || o.resourceId.Some? || o.resourceVersion.Some?)
            && !(o.resourceType.Some? && o.resourceId.Some? && o.resourceVersion.Some?) then Err(InvalidRequest)
    else if o.resourceVersion.Some? && o.resourceVersion.value <= 0 then Err(InvalidRequest)
    else Ok(o)
  }

  datatype State = InProgress | Completed | Failed

  datatype Record = Record(
    id: Uuid,
    actor: Uuid,
    operationId: Uuid,
    operation: Operation,
    keyDigest: nat,
    fingerprint: nat,
    state: State,
    leaseToken: Option<Uuid>,
    leaseExpiresAt: Option<Instant>,
    outcome: Option<SafeOutcome>,
    createdAt: Instant,
    updatedAt: Instant,
    completedAt: Option<Instant>,
    expiresAt: Option<Instant>)

  type Records = map<Uuid, Record>

  /** What a request brings: its own operation id, and digests of its key header and of its payload. */
  datatype Metadata = Metadata(operationId: Uuid, operation: Operation, keyDigest: nat, fingerprint: nat)

  datatype Disposition = Started | Replay | StillInProgress | NeedsRecovery

  datatype IdempotencyClaim = IdempotencyClaim(id: Uuid, disposition: Disposition, state: State, leaseToken: Option<Uuid>, outcome: Option<SafeOutcome>)

  const LEASE_DURATION: int := 2 * MINUTE
  const TERMINAL_RETENTION: int := 14 * DAY

  // ---- Database rules ----------------------------------------------------------------------

  predicate CompleteResource(o: SafeOutcome) {
    if o.resourceType.None? && o.resourceId.None? && o.resourceVersion.None? then true
    else o.resourceType.Some? && o.resourceId.Some? && o.resourceVersion.Some? && o.resourceVersion.value > 0
  }

  /** The CHECK constraints of the table. */
  predicate RecordChecks(r: Record) {
    && (if r.state == InProgress
        then r.leaseToken.Some? && r.leaseExpiresAt.Some? && r.completedAt.None? && r.expiresAt.None? && r.outcome.None?
        else r.leaseToken.None? && r.leaseExpiresAt.None? && r.completedAt.Some? && r.expiresAt.Some? && r.outcome.Some?)
    && (r.outcome.Some? ==> CompleteResource(r.outcome.value) && 100 <= r.outcome.value.httpStatus <= 599)
    && (r.expiresAt.Some? ==> r.completedAt.Some? && r.expiresAt.value > r.completedAt.value)
  }

  /** Two rows that cannot be stored together: the primary key and the two unique constraints. */
  predicate Collide(r: Record, s: Record) {
    r.id == s.id || r.operationId == s.operationId || InScope(r, s.operation, s.keyDigest)
  }

  predicate InScope(r: Record, operation: Operation, keyDigest: nat) {
    r.operation == operation && r.keyDigest == keyDigest
  }

  predicate Insertable(records: Records, r: Record) {
    forall k {:trigger records[k]} :: k in records ==> !Collide(records[k], r)
  }

  // ---- The repository's calls --------------------------------------------------------------

  predicate MayClaim(role: Role, operation: Operation) {
    if operation == CreateOperation then role != Advisor else role == Admin
  }

  /** The error revalidation raises, if any. */
  function ClaimantError(access: Access, ctx: Context, operation: Operation): Option<Error> {
    if !MemberValid(access, ctx) then Some(NotFound)
    else if !MayClaim(ctx.role, operation) then Some(PermissionDenied)
    else None
  }

  function NewRecord(ctx: Context, meta: Metadata, supply: Supply): Record {
    Record(supply.recordId, ctx.membership, meta.operationId, meta.operation, meta.keyDigest, meta.fingerprint, InProgress,
           Some(supply.leaseToken), Some(supply.now + LEASE_DURATION), None, supply.now, supply.now, None, None)
  }

  predicate IsSelected(records: Records, operation: Operation, keyDigest: nat, k: Uuid) {
    k in records && InScope(records[k], operation, keyDigest)
  }

  /** The record of a scope key; there is at most one. */
  ghost function Select(records: Records, operation: Operation, keyDigest: nat): (found: Option<Uuid>)
    ensures found.Some? ==> IsSelected(records, operation, keyDigest, found.value)
    ensures found.None? ==> forall k :: !IsSelected(records, operation, keyDigest, k)
  {
    if exists k :: IsSelected(records, operation, keyDigest, k) then
      var k :| IsSelected(records, operation, keyDigest, k);
      Some(k)
    else None
  }

  function StartedClaim(r: Record): IdempotencyClaim {
    IdempotencyClaim(r.id, Started, InProgress, r.leaseToken, None)
  }

  function ClaimOf(r: Record, disposition: Disposition): IdempotencyClaim {
    IdempotencyClaim(r.id, disposition, r.state, r.leaseToken, r.outcome)
  }

  predicate ExpiredAt(r: Record, now: Instant) {
    r.state != InProgress && r.expiresAt.Some? && r.expiresAt.value <= now
  }

  /** What a claim that met record `r` under its key answers. */
  ghost function ClaimExisting(records: Records, r: Record, ctx: Context, meta: Metadata, supply: Supply): (Records, Result<IdempotencyClaim, Error>) {
    if r.actor != ctx.membership then (records, Err(NotFound))
    else if r.operationId != meta.operationId || r.fingerprint != meta.fingerprint then (records, Err(KeyReused))
    else if ExpiredAt(r, supply.now) then
      var rest, renewed := records - {r.id}, NewRecord(ctx, meta, supply);
      if Insertable(rest, renewed) then (rest[renewed.id := renewed], Ok(StartedClaim(renewed))) else (records, Err(IntegrityViolation))
    else if r.state != InProgress then (records, Ok(ClaimOf(r, Replay)))
    else if r.leaseExpiresAt.Some? && r.leaseExpiresAt.value > supply.now then (records, Ok(ClaimOf(r, StillInProgress)))
    else (records, Ok(ClaimOf(r, NeedsRecovery)))
  }

  ghost function Claim(records: Records, access: Access, ctx: Context, meta: Metadata, supply: Supply): (Records, Result<IdempotencyClaim, Error>) {
    var newRecord := NewRecord(ctx, meta, supply);
    var found := Select(records, meta.operation, meta.keyDigest);
    if ClaimantError(access, ctx, meta.operation).Some? then (records, Err(ClaimantError(access, ctx, meta.operation).value))
    else if Insertable(records, newRecord) then (records[newRecord.id := newRecord], Ok(StartedClaim(newRecord)))
    else if found.None? then (records, Err(KeyReused))
    else ClaimExisting(records, records[found.value], ctx, meta, supply)
  }

  function Finished(r: Record, outcome: SafeOutcome, state: State, now: Instant): Record {
    r.(state := state, leaseToken := None, leaseExpiresAt := None, outcome := Some(outcome),
       updatedAt := now, completedAt := Some(now), expiresAt := Some(now + TERMINAL_RETENTION))
  }

  /** Finishing under a lease: complete, or fail. */
  function Finish(records: Records, access: Access, ctx: Context, operation: Operation, claimId: Uuid,
                  leaseToken: Uuid, outcome: SafeOutcome, state: State, now: Instant): (Records, Result<IdempotencyClaim, Error>) {
    if ClaimantError(access, ctx, operation).Some? then (records, Err(ClaimantError(access, ctx, operation).value))
    else if claimId !in records || records[claimId].actor != ctx.membership then (records, Err(NotFound))
    else if records[claimId].state != InProgress || records[claimId].leaseToken != Some(leaseToken) then (records, Err(LeaseConflict))
    else
      var finished := Finished(records[claimId], outcome, state, now);
      (records[claimId := finished], Ok(ClaimOf(finished, Replay)))
  }

  /** The service only lets the holder of a started claim finish it. */
  function FinishClaim(records: Records, access: Access, ctx: Context, operation: Operation, claim: IdempotencyClaim,
                       outcome: SafeOutcome, state: State, now: Instant): (Records, Result<IdempotencyClaim, Error>) {
    if claim.disposition != Started || claim.leaseToken.None? then (records, Err(LeaseConflict))
    else Finish(records, access, ctx, operation, claim.id, claim.leaseToken.value, outcome, state, now)
  }

  // ---- What the records always satisfy -----------------------------------------------------

  ghost predicate RecordsValid(records: Records) {
    && (forall k {:trigger records[k]} :: k in records ==> records[k].id == k && RecordChecks(records[k]))
    && (forall j, k {:trigger records[j], records[k]} :: j in records && k in records && Collide(records[j], records[k]) ==> j == k)
  }

  lemma OutcomesAreStorable(o: SafeOutcome)
    ensures NewOutcome(o).Ok? <==> CompleteResource(o) && 100 <= o.httpStatus <= 599
  {
  }

  lemma ClaimKeepsRecords(records: Records, access: Access, ctx: Context, meta: Metadata, supply: Supply)
    requires RecordsValid(records)
    ensures RecordsValid(Claim(records, access, ctx, meta, supply).0)
  {
  }

  lemma FinishKeepsRecords(records: Records, access: Access, ctx: Context, operation: Operation, claimId: Uuid,
                           leaseToken: Uuid, outcome: SafeOutcome, state: State, now: Instant)
    requires RecordsValid(records) && NewOutcome(outcome).Ok? && state != InProgress
    ensures RecordsValid(Finish(records, access, ctx, operation, claimId, leaseToken, outcome, state, now).0)
  {
  }

  /** A finished record stays as it is until a claim under its own key finds it expired. */
  lemma OutcomesAreKept(records: Records, access: Access, ctx: Context, meta: Metadata, supply: Supply, k: Uuid)
    requires RecordsValid(records) && k in records && records[k].state != InProgress
    requires !ExpiredAt(records[k], supply.now) || !InScope(records[k], meta.operation, meta.keyDigest)
    ensures var after := Claim(records, access, ctx, meta, supply).0;
            k in after && after[k] == records[k]
  {
    var r := NewRecord(ctx, meta, supply);
    var found := Select(records, meta.operation, meta.keyDigest);
    assert Insertable(records, r) ==> !Collide(records[k], r);
    if found.Some? && found.value != k {
      var rest := records - {found.value};
      assert rest[k] == records[k];
    }
  }

  lemma FinishedIsFinal(records: Records, access: Access, ctx: Context, operation: Operation, claimId: Uuid,
                        leaseToken: Uuid, outcome: SafeOutcome, state: State, now: Instant, k: Uuid)
    requires k in records && records[k].state != InProgress
    ensures var after := Finish(records, access, ctx, operation, claimId, leaseToken, outcome, state, now).0;
            k in after && after[k] == records[k]
  {
  }

  /** A claim is started only when its key is free or expired, and its holder alone can finish it. */
  lemma StartedMeansExclusive(records: Records, access: Access, ctx: Context, meta: Metadata, supply: Supply)
    requires RecordsValid(records)
    ensures var (after, claim) := Claim(records, access, ctx, meta, supply);
            claim.Ok? && claim.value.disposition == Started ==>
              && (forall k {:trigger records[k]} :: k in records && InScope(records[k], meta.operation, meta.keyDigest) ==> ExpiredAt(records[k], supply.now))
              && claim.value.id in after && after[claim.value.id] == NewRecord(ctx, meta, supply)
              && claim.value.leaseToken == Some(supply.leaseToken)
  {
  }

  /** A lease is spent by its first use: the same token finishes nothing twice. */
  lemma LeasesWorkOnce(records: Records, access: Access, ctx: Context, operation: Operation, claim: IdempotencyClaim,
                       o: SafeOutcome, state: State, now: Instant,
                       access': Access, ctx': Context, o': SafeOutcome, state': State, now': Instant)
    requires FinishClaim(records, access, ctx, operation, claim, o, state, now).1.Ok? && state != InProgress
    ensures var after := FinishClaim(records, access, ctx, operation, claim, o, state, now).0;
            && FinishClaim(after, access', ctx', operation, claim, o', state', now').0 == after
            && FinishClaim(after, access', ctx', operation, claim, o', state', now').1.Err?
  {
  }

  /** While a record is in progress, no claim under its key starts a second execution. */
  lemma InProgressBlocks(records: Records, access: Access, ctx: Context, meta: Metadata, supply: Supply, k: Uuid)
    requires RecordsValid(records) && IsSelected(records, meta.operation, meta.keyDigest, k) && records[k].state == InProgress
    ensures var (after, claim) := Claim(records, access, ctx, meta, supply);
            && after == records
            && (claim.Ok? ==> claim.value.disposition
                              == if records[k].leaseExpiresAt.value > supply.now then StillInProgress else NeedsRecovery)
  {
  }
}
