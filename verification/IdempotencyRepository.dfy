/**
 The idempotency repository as the program runs it: it inserts, deletes and overwrites records inside its
 caller's transaction. Each method does exactly what the function of the same name in `Idempotency` says.
 */
module IdempotencyRepository {
  import opened Common
  import opened Ledger
  import I = Idempotency
  import opened Idempotency

  class Repository {
    var records: Records

    constructor ()
      ensures records == map[]
    {
      records := map[];
    }

    /** Inserts a record unless a stored one is in its way. */
    method InsertOnConflictDoNothing(r: Record) returns (inserted: bool)
      modifies this
      ensures inserted == Insertable(old(records), r)
      ensures records == if inserted then old(records)[r.id := r] else old(records)
    {
      inserted := Insertable(records, r);
      if inserted {
        records := records[r.id := r];
      }
    }

    /** The record under a scope key, found by looking through all of them. */
    method SelectForUpdate(operation: Operation, keyDigest: nat) returns (found: Option<Uuid>)
      requires RecordsValid(records)
      ensures found == Select(records, operation, keyDigest)
    {
      var todo := records.Keys;
      while todo != {}
        invariant todo <= records.Keys
        invariant forall k :: k in records && k !in todo ==> !IsSelected(records, operation, keyDigest, k)
      {
        var k :| k in todo;
        if IsSelected(records, operation, keyDigest, k) {
          assert Select(records, operation, keyDigest).Some?;
          assert Collide(records[k], records[Select(records, operation, keyDigest).value]);
          return Some(k);
        }
        todo := todo - {k};
      }
      found := None;
    }

    method Claim(access: Access, ctx: Context, meta: Metadata, supply: Supply)
      returns (r: Result<IdempotencyClaim, Error>)
      requires RecordsValid(records)
      modifies this
      ensures (records, r) == I.Claim(old(records), access, ctx, meta, supply)
    {
      var denied := ClaimantError(access, ctx, meta.operation);
      if denied.Some? {
        return Err(denied.value);
      }
      var newRecord := NewRecord(ctx, meta, supply);
      var inserted := InsertOnConflictDoNothing(newRecord);
      if inserted {
        return Ok(StartedClaim(newRecord));
      }
      var found := SelectForUpdate(meta.operation, meta.keyDigest);
      if found.None? {
        return Err(KeyReused);
      }
      var record := records[found.value];
      if record.actor != ctx.membership {
        return Err(NotFound);
      }
      if record.operationId != meta.operationId || record.fingerprint != meta.fingerprint {
        return Err(KeyReused);
      }
      if record.state == Completed || record.state == Failed {
        if record.expiresAt.Some? && record.expiresAt.value <= supply.now {
          var before := records;
          records := records - {record.id};
          r := CreateAfterExpiry(ctx, meta, supply);
          if r.Err? {
            records := before;
          }
          return;
        }
        return Ok(ClaimOf(record, Replay));
      }
      var live := record.leaseExpiresAt.Some? && record.leaseExpiresAt.value > supply.now;
      r := Ok(ClaimOf(record, if live then StillInProgress else NeedsRecovery));
    }

    method CreateAfterExpiry(ctx: Context, meta: Metadata, supply: Supply) returns (r: Result<IdempotencyClaim, Error>)
      modifies this
      ensures var renewed := NewRecord(ctx, meta, supply);
              if Insertable(old(records), renewed) then records == old(records)[renewed.id := renewed] && r == Ok(StartedClaim(renewed))
              else records == old(records) && r == Err(IntegrityViolation)
    {
      var renewed := NewRecord(ctx, meta, supply);
      var inserted := InsertOnConflictDoNothing(renewed);
      r := if inserted then Ok(StartedClaim(renewed)) else Err(IntegrityViolation);
    }

    method Finish(access: Access, ctx: Context, operation: Operation, claimId: Uuid, leaseToken: Uuid,
                  outcome: SafeOutcome, state: State, now: Instant) returns (r: Result<IdempotencyClaim, Error>)
      modifies this
      ensures (records, r) == I.Finish(old(records), access, ctx, operation, claimId, leaseToken, outcome, state, now)
    {
      var denied := ClaimantError(access, ctx, operation);
      if denied.Some? {
        return Err(denied.value);
      }
      if claimId !in records || records[claimId].actor != ctx.membership {
        return Err(NotFound);
      }
      var record := records[claimId];
      if record.state != InProgress || record.leaseToken != Some(leaseToken) {
        return Err(LeaseConflict);
      }
      record := record.(state := state);
      record := record.(leaseToken := None, leaseExpiresAt := None);
      record := record.(outcome := Some(outcome));
      record := record.(updatedAt := now, completedAt := Some(now));
      record := record.(expiresAt := Some(now + TERMINAL_RETENTION));
      records := records[claimId := record];
      r := Ok(ClaimOf(record, Replay));
    }

    /** The service's gate in front of `Finish`. */
    method FinishClaim(access: Access, ctx: Context, operation: Operation, claim: IdempotencyClaim,
                       outcome: SafeOutcome, state: State, now: Instant) returns (r: Result<IdempotencyClaim, Error>)
      modifies this
      ensures (records, r) == I.FinishClaim(old(records), access, ctx, operation, claim, outcome, state, now)
    {
      if claim.disposition != Started || claim.leaseToken.None? {
        return Err(LeaseConflict);
      }
      r := Finish(access, ctx, operation, claim.id, claim.leaseToken.value, outcome, state, now);
    }
  }
}
