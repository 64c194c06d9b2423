/**
 The finance services and their endpoints as the program runs them: ordered calls that change the ledger
 and the idempotency records, with their exception paths, inside one transaction per request.
 */
module FinanceServices {
  import opened Common
  import opened Ledger
  import opened Idempotency
  import opened Commands
  import LedgerSafety
  import CommandSafety
  import FinanceRepository
  import IdempotencyRepository

  class Services {
    const finance: FinanceRepository.Repository
    const idempotency: IdempotencyRepository.Repository

    constructor (finance: FinanceRepository.Repository, idempotency: IdempotencyRepository.Repository)
      ensures this.finance == finance && this.idempotency == idempotency
    {
      this.finance, this.idempotency := finance, idempotency;
    }

    ghost function State(): Db
      reads this, finance, idempotency
    {
      Db(finance.State(), idempotency.records)
    }

    ghost predicate Ready()
      reads this, finance, idempotency
    {
      LedgerSafety.Valid(finance.State()) && RecordsValid(idempotency.records)
    }

    /** The claim of an admitted request; claims of others still running are turned into errors. */
    method Begin(r: Request, supply: Supply) returns (begun: Result<IdempotencyClaim, Error>)
      requires RecordsValid(idempotency.records)
      modifies idempotency
      ensures var (records, claim) := Claim(old(idempotency.records), finance.access, r.ctx, MetadataOf(r), supply);
              && idempotency.records == records
              && begun == match claim
                          case Err(e) => Err(e)
                          case Ok(c) =>
                            if c.disposition == StillInProgress then Err(CommandInProgress)
                            else if c.disposition == NeedsRecovery then Err(RecoveryRequired)
                            else Ok(c)
    {
      begun := idempotency.Claim(finance.access, r.ctx, MetadataOf(r), supply);
      if begun.Ok? && begun.value.disposition == StillInProgress {
        return Err(CommandInProgress);
      }
      if begun.Ok? && begun.value.disposition == NeedsRecovery {
        return Err(RecoveryRequired);
      }
    }

    /** Records how an action went, and passes its result on. */
    method Conclude(r: Request, claim: IdempotencyClaim, performed: Result<Answer, Error>, supply: Supply)
      returns (reply: Result<Reply, Error>)
      modifies idempotency
      ensures (idempotency.records, reply) == Concluded(old(idempotency.records), finance.access, r, claim, performed, supply)
    {
      match performed
      case Err(e) =>
        var failure := FailureOutcome(r.command, e);
        if failure.Some? {
          var failed := idempotency.FinishClaim(finance.access, r.ctx, OperationOf(r.command), claim, failure.value, Failed, supply.now);
          if failed.Err? {
            return Err(failed.error);
          }
        }
        return Err(e);
      case Ok(answer) =>
        var completed := idempotency.FinishClaim(finance.access, r.ctx, OperationOf(r.command), claim, SuccessOutcome(r.command, answer), Completed, supply.now);
        if completed.Err? {
          return Err(completed.error);
        }
        return Ok(Reply(answer, false));
    }

    /** Runs the action of a started claim against the repository. */
    method Run(r: Request, action: Action, supply: Supply) returns (performed: Result<Answer, Error>)
      modifies finance`events
      ensures (finance.State(), performed) == Perform(old(finance.State()), r, action, supply)
    {
      match action
      case CreateAction(draft) =>
        var e := finance.CreateEvent(r.ctx, r.operationId, draft, supply.now, supply.eventId);
        performed := AsAnswer(e);
      case DecideAction(eventId, decision, reason, explanation) =>
        var e := finance.DecidePendingEvent(r.ctx, eventId, decision, reason, explanation, supply.now);
        performed := AsAnswer(e);
      case ReverseAction(args) =>
        var e := finance.ReverseEvent(r.ctx, args, r.expectedVersion, supply);
        performed := if e.Ok? then Ok(WholeLifecycle(e.value)) else Err(e.error);
      case ArchiveAction(eventId, reason) =>
        var e := finance.ArchiveEvent(r.ctx, eventId, r.expectedVersion, reason, supply.now);
        performed := AsAnswer(e);
    }

    method Replay(r: Request, outcome: Option<SafeOutcome>) returns (found: Result<Answer, Error>)
      requires LedgerSafety.Valid(finance.State())
      ensures found == ReplayAnswer(finance.State(), r.ctx, r.command, outcome)
    {
      match r.command
      case Reverse(eventId, _, _, _) => found := ReplayLifecycle(r.ctx, eventId, ReversedCode, outcome);
      case Correct(eventId, _, _, _, _) => found := ReplayLifecycle(r.ctx, eventId, CorrectedCode, outcome);
      case CreateManual(_) => found := ReplayCreate(Stored(), r.ctx, outcome);
      case Decide(eventId, decision, _, _) => found := ReplayDecision(Stored(), r.ctx, eventId, decision, outcome);
      case Archive(eventId, _, _) => found := ReplayArchive(Stored(), r.ctx, eventId, outcome);
    }

    function Stored(): Ledger
      reads finance
    {
      Ledger(finance.events, finance.categories, finance.access)
    }

    method ReplayLifecycle(ctx: Context, eventId: Uuid, code: OutcomeCode, outcome: Option<SafeOutcome>)
      returns (found: Result<Answer, Error>)
      requires LedgerSafety.Valid(finance.State())
      ensures found == ReplayReversal(finance.State(), ctx, eventId, code, outcome)
    {
      if outcome.Some? && Recorded(outcome.value.code, LifecycleConflict).Some? {
        return Err(Recorded(outcome.value.code, LifecycleConflict).value);
      }
      if outcome.None? || outcome.value.code != code || outcome.value.resourceId != Some(eventId) {
        return Err(ReplayUnavailable);
      }
      var result := finance.GetLifecycleResult(ctx, eventId);
      if result.Err? {
        return Err(result.error);
      }
      if result.value.None? || result.value.value.reversal.None? {
        return Err(ReplayUnavailable);
      }
      found := Ok(WholeLifecycle(result.value.value));
    }

    /** One service call: the checks, the claim, then the replay or the single execution. */
    method Serve(r: Request, supply: Supply) returns (reply: Result<Reply, Error>)
      requires Ready()
      modifies finance`events, idempotency
      ensures (State(), reply) == Commands.Serve(old(State()), r, supply)
    {
      var admitted := Admit(Stored(), r);
      if admitted.Err? {
        return Err(admitted.error);
      }
      var begun := Begin(r, supply);
      if begun.Err? {
        return Err(begun.error);
      }
      if begun.value.disposition == Idempotency.Replay {
        var found := Replay(r, begun.value.outcome);
        return if found.Ok? then Ok(Reply(found.value, true)) else Err(found.error);
      }
      var performed := Run(r, admitted.value, supply);
      reply := Conclude(r, begun.value, performed, supply);
    }

    /** One request: what its errors roll back is as if it had never been sent. */
    method Handle(r: Request, supply: Supply) returns (reply: Result<Reply, Error>)
      requires CommandSafety.DbValid(State())
      modifies finance`events, idempotency
      ensures (State(), reply) == Commands.Handle(old(State()), r, supply)
      ensures CommandSafety.DbValid(State())
    {
      CommandSafety.HandleKeepsValid(State(), r, supply);
      var events, records := finance.events, idempotency.records;
      reply := Serve(r, supply);
      if reply.Err? && RollsBack(reply.error) {
        finance.events, idempotency.records := events, records;
      }
    }
  }
}
