/**
 The whole installation: finance requests interleaved with membership changes and ownership transfers.
 The finance commands ask the workspace who their actor is, so what only an Admin may do is done by the
 owner of that moment.
 */
module JointRuns {
  import opened Common
  import opened Ledger
  import opened LedgerSafety
  import opened LedgerHistory
  import opened Commands
  import opened CommandSafety
  import CommandRuns
  import Runs
  import Workspace
  import WorkspaceSafety

  datatype Installation = Installation(workspace: Workspace.State, finance: Db, financeEnabled: bool)

  datatype Step =
    | InWorkspace(workspaceStep: Workspace.Step)
    | InFinance(financeStep: CommandRuns.Step)
    | SwitchingFinance(enabled: bool)

  /** The finance tables as seen through the current members and the module switch. */
  function Joined(workspace: Workspace.State, finance: Db, enabled: bool): Installation {
    Installation(workspace, finance.(ledger := finance.ledger.(access := WorkspaceSafety.AccessOf(workspace, enabled))), enabled)
  }

  /** Access is never changed by itself: it follows from the workspace and the switch. */
  ghost function Next(s: Installation, step: Step): Installation {
    match step
    case InWorkspace(w) => Joined(Workspace.Next(s.workspace, w), s.finance, s.financeEnabled)
    case InFinance(f) => if f.ChangingAccess? then s else s.(finance := CommandRuns.Next(s.finance, f))
    case SwitchingFinance(enabled) => Joined(s.workspace, s.finance, enabled)
  }

  ghost function After(s: Installation, steps: seq<Step>): Installation {
    Runs.Run(Next, s, steps)
  }

  /** A bootstrapped workspace, nothing recorded, finance switched off. */
  function Installed(email: string, accountId: Uuid, membershipId: Uuid): Installation {
    Joined(Workspace.Bootstrapped(email, accountId, membershipId), CommandRuns.EMPTY, false)
  }

  // ---- The invariant -----------------------------------------------------------------------

  ghost predicate Valid(s: Installation) {
    && WorkspaceSafety.OwnershipValid(s.workspace) && DbValid(s.finance)
    && s.finance.ledger.access == WorkspaceSafety.AccessOf(s.workspace, s.financeEnabled)
  }

  lemma InstalledIsValid(email: string, accountId: Uuid, membershipId: Uuid)
    ensures Valid(Installed(email, accountId, membershipId))
  {
    WorkspaceSafety.BootstrapIsValid(email, accountId, membershipId);
    CommandRuns.EmptyIsValid();
    CommandRuns.AccessKeepsValid(CommandRuns.EMPTY.ledger, Installed(email, accountId, membershipId).finance.ledger.access);
  }

  lemma JoiningKeepsValid(workspace: Workspace.State, finance: Db, enabled: bool)
    requires WorkspaceSafety.OwnershipValid(workspace) && DbValid(finance)
    ensures Valid(Joined(workspace, finance, enabled))
  {
    CommandRuns.AccessKeepsValid(finance.ledger, WorkspaceSafety.AccessOf(workspace, enabled));
  }

  lemma FinanceKeepsAccess(db: Db, step: CommandRuns.Step)
    requires DbValid(db) && !step.ChangingAccess?
    ensures CommandRuns.Next(db, step).ledger.access == db.ledger.access
  {
    match step
    case Serving(r, supply) =>
      if CommandRuns.TakesEffect(db, step) {
        CommandRuns.EffectiveRequestsPerform(db, step);
        PerformChangesOnlyEvents(db.ledger, r, Admit(db.ledger, r).value, supply);
      } else {
        CommandRuns.OnlyEffectiveRequestsWrite(db, step);
      }
    case Editing(ctx, eventId, version, u, now) => EditChangesOnlyEvents(db.ledger, ctx, eventId, version, u, now);
    case StoringCategory(_, _) =>
  }

  lemma EditChangesOnlyEvents(l: Ledger, ctx: Context, eventId: Uuid, version: int, u: PendingUpdate, now: Instant)
    ensures HandleEdit(l, ctx, eventId, version, u, now).0.access == l.access
  {
  }

  lemma NextKeepsValid(s: Installation, step: Step)
    requires Valid(s)
    ensures Valid(Next(s, step))
  {
    match step
    case InWorkspace(w) =>
      WorkspaceSafety.NextKeepsOwnership(s.workspace, w);
      JoiningKeepsValid(Workspace.Next(s.workspace, w), s.finance, s.financeEnabled);
    case InFinance(f) =>
      if !f.ChangingAccess? {
        CommandRuns.NextKeepsValid(s.finance, f);
        FinanceKeepsAccess(s.finance, f);
      }
    case SwitchingFinance(enabled) => JoiningKeepsValid(s.workspace, s.finance, enabled);
  }

  lemma {:induction false} RunsStayValid(s: Installation, steps: seq<Step>)
    requires Valid(s)
    ensures Valid(After(s, steps))
  {
    if steps != [] {
      RunsStayValid(s, steps[..|steps| - 1]);
      NextKeepsValid(After(s, steps[..|steps| - 1]), steps[|steps| - 1]);
    }
  }

  // ---- Who acts as Admin -------------------------------------------------------------------

  /** Whoever makes a request take effect is who the request says. */
  lemma EffectiveActorsAreMembers(db: Db, r: Request, supply: Supply)
    requires DbValid(db) && CommandRuns.TakesEffect(db, CommandRuns.Serving(r, supply))
    ensures MemberValid(db.ledger.access, r.ctx)
  {
    RequestsTakeEffect(db, r, supply);
    ClaimOutcomes(db.records, db.ledger.access, r, supply);
  }

  /** A finance request that takes effect in the name of an Admin is the current owner's. */
  lemma AdminEffectsAreTheOwners(s: Installation, r: Request, supply: Supply)
    requires Valid(s) && CommandRuns.TakesEffect(s.finance, CommandRuns.Serving(r, supply)) && r.ctx.role == Admin
    ensures r.ctx.membership == s.workspace.owner && Workspace.ActiveMember(s.workspace, s.workspace.owner)
  {
    EffectiveActorsAreMembers(s.finance, r, supply);
    WorkspaceSafety.OnlyTheOwnerActsAsAdmin(s.workspace, s.financeEnabled, r.ctx);
  }

  // ---- What the ledger records about it ----------------------------------------------------

  /** The uses of an Admin's powers that a row can record. */
  datatype Power = Reviewing | Archiving | Correcting

  /** Who used the power, when, and for what reason. */
  datatype Evidence = Evidence(who: Uuid, at: Instant, reason: Option<Reason>)

  function EvidenceOf(e: Event, power: Power): Option<Evidence> {
    match power
    case Reviewing =>
      if e.reviewedBy.Some? && e.reviewedAt.Some? then Some(Evidence(e.reviewedBy.value, e.reviewedAt.value, e.decisionReason)) else None
    case Archiving =>
      if e.archivedBy.Some? && e.archivedAt.Some? then Some(Evidence(e.archivedBy.value, e.archivedAt.value, e.archiveReason)) else None
    case Correcting =>
      if e.reverses.Some? || e.replacementFor.Some? then Some(Evidence(e.createdBy, e.createdAt, None)) else None
  }

  function EvidenceAt(rows: Rows, k: Uuid, power: Power): Option<Evidence> {
    if k in rows then EvidenceOf(rows[k], power) else None
  }

  /** The commands that use a power. */
  predicate Exercises(c: Command, power: Power) {
    match power
    case Reviewing => !c.Archive?
    case Archiving => c.Archive?
    case Correcting => c.Reverse? || c.Correct?
  }

  /** The reason a command gives for what it does to a row. */
  function ReasonGiven(c: Command, power: Power, f: Event): Option<Reason> {
    if power == Correcting then None
    else match c
      case CreateManual(_) => Some(AdminCreated)
      case Decide(_, _, reason, _) => Some(reason)
      case Reverse(_, _, reason, _) => Some(reason)
      case Correct(_, _, reason, _, _) => Some(if f.replacementFor.Some? then CorrectionReplacement else reason)
      case Archive(_, reason, _) => Some(reason)
  }

  /** The evidence a request leaves on a row it writes. */
  function EvidenceLeft(r: Request, power: Power, f: Event, now: Instant): Evidence {
    Evidence(r.ctx.membership, now, ReasonGiven(r.command, power, f))
  }

  /** A row's evidence is what it was, or there was none and the request has left its own. */
  predicate SignedBy(was: Option<Evidence>, f: Event, power: Power, r: Request, now: Instant) {
    || EvidenceOf(f, power) == was
    || (was.None? && r.ctx.role == Admin && Exercises(r.command, power) && EvidenceOf(f, power) == Some(EvidenceLeft(r, power, f, now)))
  }

  ghost predicate AllSignedBy(rows: Rows, after: Rows, r: Request, now: Instant) {
    && rows.Keys <= after.Keys
    && forall k, power {:trigger EvidenceAt(after, k, power)} :: k in after ==> SignedBy(EvidenceAt(rows, k, power), after[k], power, r, now)
  }

  /** The three kinds of evidence of one row. */
  predicate RowSignedBy(was: Option<Event>, f: Event, r: Request, now: Instant) {
    && SignedBy(EvidenceBefore(was, Reviewing), f, Reviewing, r, now)
    && SignedBy(EvidenceBefore(was, Archiving), f, Archiving, r, now)
    && SignedBy(EvidenceBefore(was, Correcting), f, Correcting, r, now)
  }

  function EvidenceBefore(was: Option<Event>, power: Power): Option<Evidence> {
    if was.Some? then EvidenceOf(was.value, power) else None
  }

  lemma RowSigned(was: Option<Event>, f: Event, r: Request, now: Instant, power: Power)
    requires RowSignedBy(was, f, r, now)
    ensures SignedBy(EvidenceBefore(was, power), f, power, r, now)
  {
    match power
    case Reviewing =>
    case Archiving =>
    case Correcting =>
  }

  lemma WriteIsSigned(rows: Rows, e: Event, r: Request, now: Instant)
    requires RowSignedBy(if e.id in rows then Some(rows[e.id]) else None, e, r, now)
    ensures AllSignedBy(rows, rows[e.id := e], r, now)
  {
    forall k, power | k in rows[e.id := e] ensures SignedBy(EvidenceAt(rows, k, power), rows[e.id := e][k], power, r, now) {
      RowSigned(if e.id in rows then Some(rows[e.id]) else None, e, r, now, power);
    }
  }

  /** A row made by a request: its maker's review, or none, and no archiving. */
  lemma NewRowIsSigned(f: Event, r: Request, now: Instant, reason: Reason)
    requires r.ctx.role == Admin && !r.command.Archive? && Reviewed(f, r.ctx, now, reason)
    requires ReasonGiven(r.command, Reviewing, f) == Some(reason)
    requires f.reverses.Some? || f.replacementFor.Some? ==> r.command.Reverse? || r.command.Correct?
    ensures RowSignedBy(None, f, r, now)
  {
  }

  lemma CreationIsSigned(l: Ledger, r: Request, d: Draft, now: Instant, id: Uuid)
    requires r.command.CreateManual? && CreateEvent(l, r.ctx, r.operationId, d, now, id).1.Ok?
    ensures AllSignedBy(l.events, CreateEvent(l, r.ctx, r.operationId, d, now, id).0.events, r, now)
  {
    SubmissionsAreStored(l, r.ctx, r.operationId, d, now, id);
    var e := CreateEvent(l, r.ctx, r.operationId, d, now, id).1.value;
    if r.ctx.role == Admin {
      NewRowIsSigned(e, r, now, AdminCreated);
    }
    WriteIsSigned(l.events, e, r, now);
  }

  lemma DecidedRowIsSigned(e: Event, f: Event, r: Request, now: Instant)
    requires Checks(e) && e.approval == Pending && Evolves(e, f) && r.ctx.role == Admin && r.command.Decide?
    requires f.archivedAt == e.archivedAt && e.archivedAt.None?
    requires f.reviewedBy == Some(r.ctx.membership) && f.reviewedAt == Some(now) && f.decisionReason == Some(r.command.decisionReason)
    ensures RowSignedBy(Some(e), f, r, now)
  {
  }

  lemma DecisionIsSigned(l: Ledger, r: Request, eventId: Uuid, decision: Decision, reason: Reason,
                         explanation: Option<string>, now: Instant)
    requires RowsValid(l.events, l.categories) && LinksPresent(l.events)
    requires r.ctx.role == Admin && r.command.Decide? && r.command.decisionReason == reason
    requires DecidePendingEvent(l, r.ctx, eventId, decision, reason, explanation, now).1.Ok?
    ensures AllSignedBy(l.events, DecidePendingEvent(l, r.ctx, eventId, decision, reason, explanation, now).0.events, r, now)
  {
    DecisionsAreStored(l, r.ctx, eventId, decision, reason, explanation, now);
    DecisionWrote(l, r.ctx, eventId, decision, reason, explanation, now);
    RowFacts(l.events, l.categories, eventId);
    DecisionEvolves(l.events[eventId], decision, reason, explanation, r.ctx, now);
    var f := Decided(l.events[eventId], decision, reason, explanation, r.ctx, now);
    DecidedRowIsSigned(l.events[eventId], f, r, now);
    WriteIsSigned(l.events, f, r, now);
  }

  lemma ArchivedRowIsSigned(e: Event, f: Event, r: Request, now: Instant)
    requires Evolves(e, f) && SameReview(e, f) && r.ctx.role == Admin && r.command.Archive?
    requires e.archivedAt.None? && f.archivedAt == Some(now) && f.archivedBy == Some(r.ctx.membership) && f.archiveReason == Some(r.command.reason)
    ensures RowSignedBy(Some(e), f, r, now)
  {
  }

  lemma ArchivingIsSigned(l: Ledger, r: Request, eventId: Uuid, reason: Reason, now: Instant)
    requires WellKeyed(l.events) && LinksPresent(l.events) && ReversalsSound(l.events)
    requires r.ctx.role == Admin && r.command.Archive? && r.command.reason == reason
    requires ArchiveEvent(l, r.ctx, eventId, r.expectedVersion, reason, now).1.Ok?
    ensures AllSignedBy(l.events, ArchiveEvent(l, r.ctx, eventId, r.expectedVersion, reason, now).0.events, r, now)
  {
    ArchivesAreStored(l, r.ctx, eventId, r.expectedVersion, reason, now);
    ArchiveWrote(l, r.ctx, eventId, r.expectedVersion, reason, now);
    var f := Archived(l.events[eventId], reason, r.ctx, now);
    ArchivingEvolves(l.events[eventId], reason, r.ctx, now);
    ArchivedRowIsSigned(l.events[eventId], f, r, now);
    WriteIsSigned(l.events, f, r, now);
  }

  lemma SignedTogether(rows: Rows, flipped: Event, reversal: Event, replacement: Option<Event>, r: Request,
                       now: Instant)
    requires flipped.id in rows && RowSignedBy(Some(rows[flipped.id]), flipped, r, now)
    requires reversal.id !in rows && RowSignedBy(None, reversal, r, now)
    requires replacement.Some? ==> replacement.value.id !in rows && replacement.value.id != reversal.id && RowSignedBy(None, replacement.value, r, now)
    ensures AllSignedBy(rows, AfterReversal(rows, flipped, reversal, replacement), r, now)
  {
    var after := AfterReversal(rows, flipped, reversal, replacement);
    forall k, power | k in after ensures SignedBy(EvidenceAt(rows, k, power), after[k], power, r, now) {
      RowSigned(Some(rows[flipped.id]), flipped, r, now, power);
      RowSigned(None, reversal, r, now, power);
      if replacement.Some? {
        RowSigned(None, replacement.value, r, now, power);
      }
    }
  }

  /** The original of a correction keeps its evidence. */
  lemma KeptRowIsSigned(e: Event, f: Event, r: Request, now: Instant)
    requires Evolves(e, f) && SameReview(e, f) && f.archivedAt == e.archivedAt && f.archivedBy == e.archivedBy && f.archiveReason == e.archiveReason
    ensures RowSignedBy(Some(e), f, r, now)
  {
  }

  lemma CorrectionIsSigned(l: Ledger, r: Request, a: ReversalArgs, supply: Supply)
    requires LedgerSafety.Valid(l) && r.ctx.role == Admin && (r.command.Reverse? || r.command.Correct?) && r.command.reason == a.reason
    requires a.replacement.Some? ==> r.command.Correct?
    requires ReverseEvent(l, r.ctx, a, r.expectedVersion, supply).1.Ok?
    ensures AllSignedBy(l.events, ReverseEvent(l, r.ctx, a, r.expectedVersion, supply).0.events, r, supply.now)
  {
    ReverseWrote(l, r.ctx, a, r.expectedVersion, supply);
    CorrectionRowsAreSigned(l, r, a, supply);
    var (reversal, replacement, flipped) := PlannedReversal(l.events[a.eventId], r.ctx, a, supply);
    SignedTogether(l.events, flipped, reversal, replacement, r, supply.now);
  }

  lemma CorrectionRowsAreSigned(l: Ledger, r: Request, a: ReversalArgs, supply: Supply)
    requires RowsValid(l.events, l.categories) && r.ctx.role == Admin && (r.command.Reverse? || r.command.Correct?) && r.command.reason == a.reason
    requires a.replacement.Some? ==> r.command.Correct?
    requires ReverseEvent(l, r.ctx, a, r.expectedVersion, supply).1.Ok?
    ensures a.eventId in l.events
    ensures var found := ReverseEvent(l, r.ctx, a, r.expectedVersion, supply).1.value;
            && RowSignedBy(Some(l.events[a.eventId]), found.original, r, supply.now)
            && found.reversal.Some? && RowSignedBy(None, found.reversal.value, r, supply.now)
            && (found.replacement.Some? ==> RowSignedBy(None, found.replacement.value, r, supply.now))
  {
    ReverseWrote(l, r.ctx, a, r.expectedVersion, supply);
    CorrectionsAreStored(l, r.ctx, a, r.expectedVersion, supply);
    FlipEvolves(l.events[a.eventId], r.ctx, supply.now);
    FoundIsSigned(l.events[a.eventId], ReverseEvent(l, r.ctx, a, r.expectedVersion, supply).1.value, r, a, supply);
  }

  lemma FoundIsSigned(e: Event, found: Lifecycle, r: Request, a: ReversalArgs, supply: Supply)
    requires r.ctx.role == Admin && (r.command.Reverse? || r.command.Correct?) && r.command.reason == a.reason
    requires Evolves(e, found.original) && SameReview(e, found.original) && found.original.archivedAt == e.archivedAt
    requires found.original.archivedBy == e.archivedBy && found.original.archiveReason == e.archiveReason
    requires found.reversal.Some? && Reviewed(found.reversal.value, r.ctx, supply.now, a.reason) && found.reversal.value.replacementFor.None?
    requires found.replacement.Some? ==>
               && r.command.Correct? && found.replacement.value.replacementFor.Some?
               && Reviewed(found.replacement.value, r.ctx, supply.now, CorrectionReplacement)
    ensures RowSignedBy(Some(e), found.original, r, supply.now) && RowSignedBy(None, found.reversal.value, r, supply.now)
    ensures found.replacement.Some? ==> RowSignedBy(None, found.replacement.value, r, supply.now)
  {
    KeptRowIsSigned(e, found.original, r, supply.now);
    NewRowIsSigned(found.reversal.value, r, supply.now, a.reason);
    if found.replacement.Some? {
      NewRowIsSigned(found.replacement.value, r, supply.now, CorrectionReplacement);
    }
  }

  /** What admission keeps of a command for its evidence. */
  predicate AdmittedFrom(r: Request, action: Action) {
    match action
    case CreateAction(_) => r.command.CreateManual?
    case DecideAction(_, _, reason, _) => r.ctx.role == Admin && r.command.Decide? && r.command.decisionReason == reason
    case ReverseAction(a) =>
      && r.ctx.role == Admin && (r.command.Reverse? || r.command.Correct?) && r.command.reason == a.reason
      && (a.replacement.Some? ==> r.command.Correct?)
    case ArchiveAction(_, reason) => r.ctx.role == Admin && r.command.Archive? && r.command.reason == reason
  }

  lemma AdmissionKeepsReasons(l: Ledger, r: Request)
    requires Admit(l, r).Ok?
    ensures AdmittedFrom(r, Admit(l, r).value)
  {
  }

  lemma PerformIsSigned(l: Ledger, r: Request, action: Action, supply: Supply)
    requires LedgerSafety.Valid(l) && AdmittedFrom(r, action) && Perform(l, r, action, supply).1.Ok?
    ensures AllSignedBy(l.events, Perform(l, r, action, supply).0.events, r, supply.now)
  {
    match action
    case CreateAction(d) => CreationIsSigned(l, r, d, supply.now, supply.eventId);
    case DecideAction(eventId, decision, reason, explanation) => DecisionIsSigned(l, r, eventId, decision, reason, explanation, supply.now);
    case ReverseAction(a) => CorrectionIsSigned(l, r, a, supply);
    case ArchiveAction(eventId, reason) => ArchivingIsSigned(l, r, eventId, reason, supply.now);
  }

  lemma EditSignsNothing(l: Ledger, ctx: Context, eventId: Uuid, version: int, u: PendingUpdate, now: Instant,
                         k: Uuid, power: Power)
    requires WellKeyed(l.events)
    ensures EvidenceAt(HandleEdit(l, ctx, eventId, version, u, now).0.events, k, power) == EvidenceAt(l.events, k, power)
  {
    if HandleEdit(l, ctx, eventId, version, u, now).1.Ok? {
      EditWrote(l, ctx, eventId, version, PrepareUpdate(u).value, now);
    } else {
      RefusedEditWritesNothing(l, ctx, eventId, version, u, now);
    }
  }

  lemma RefusedEditWritesNothing(l: Ledger, ctx: Context, eventId: Uuid, version: int, u: PendingUpdate, now: Instant)
    requires HandleEdit(l, ctx, eventId, version, u, now).1.Err?
    ensures HandleEdit(l, ctx, eventId, version, u, now).0 == l
  {
  }

  /**
   The step writes this evidence on a row that had none: it is a finance request taking effect that uses
   the power, and the evidence names the owner of that moment, the request's time and its reason.
   */
  ghost predicate Signs(s: Installation, step: Step, k: Uuid, power: Power, v: Evidence) {
    && step.InFinance? && step.financeStep.Serving? && CommandRuns.TakesEffect(s.finance, step.financeStep)
    && (var r, now := step.financeStep.request, step.financeStep.supply.now;
        var after := Next(s, step).finance.ledger.events;
        && EvidenceAt(s.finance.ledger.events, k, power) == None
        && k in after && EvidenceOf(after[k], power) == Some(v) && v == EvidenceLeft(r, power, after[k], now)
        && Exercises(r.command, power) && r.ctx.role == Admin && v.who == s.workspace.owner && Workspace.ActiveMember(s.workspace, v.who))
  }

  lemma RequestSigns(s: Installation, r: Request, supply: Supply, k: Uuid, power: Power)
    requires Valid(s) && CommandRuns.TakesEffect(s.finance, CommandRuns.Serving(r, supply))
    ensures var step := InFinance(CommandRuns.Serving(r, supply));
            var had, has := EvidenceAt(s.finance.ledger.events, k, power), EvidenceAt(Next(s, step).finance.ledger.events, k, power);
            has == had || (has.Some? && Signs(s, step, k, power, has.value))
  {
    EffectSigns(s.finance, r, supply, k, power);
    if r.ctx.role == Admin {
      AdminEffectsAreTheOwners(s, r, supply);
    }
  }

  lemma EffectSigns(db: Db, r: Request, supply: Supply, k: Uuid, power: Power)
    requires DbValid(db) && CommandRuns.TakesEffect(db, CommandRuns.Serving(r, supply))
    ensures var rows, after := db.ledger.events, CommandRuns.Next(db, CommandRuns.Serving(r, supply)).ledger.events;
            || EvidenceAt(after, k, power) == EvidenceAt(rows, k, power)
            || (EvidenceAt(rows, k, power).None? && k in after && EvidenceOf(after[k], power) == Some(EvidenceLeft(r, power, after[k], supply.now))
                && r.ctx.role == Admin && Exercises(r.command, power))
  {
    EffectsAreSigned(db, r, supply);
    SignedRow(db.ledger.events, CommandRuns.Next(db, CommandRuns.Serving(r, supply)).ledger.events, r, supply.now, k, power);
  }

  lemma SignedRow(rows: Rows, after: Rows, r: Request, now: Instant, k: Uuid, power: Power)
    requires AllSignedBy(rows, after, r, now)
    ensures k in after ==> SignedBy(EvidenceAt(rows, k, power), after[k], power, r, now)
    ensures k !in after ==> EvidenceAt(after, k, power) == EvidenceAt(rows, k, power)
  {
    assert k in after ==> EvidenceAt(after, k, power) == EvidenceOf(after[k], power);
  }

  lemma EffectsAreSigned(db: Db, r: Request, supply: Supply)
    requires DbValid(db) && CommandRuns.TakesEffect(db, CommandRuns.Serving(r, supply))
    ensures AllSignedBy(db.ledger.events, CommandRuns.Next(db, CommandRuns.Serving(r, supply)).ledger.events, r, supply.now)
  {
    CommandRuns.EffectiveRequestsPerform(db, CommandRuns.Serving(r, supply));
    AdmissionKeepsReasons(db.ledger, r);
    PerformIsSigned(db.ledger, r, Admit(db.ledger, r).value, supply);
  }

  /** A step leaves the evidence of every row alone, or writes it where there was none. */
  lemma NextSigns(s: Installation, step: Step, k: Uuid, power: Power)
    requires Valid(s)
    ensures var had, has := EvidenceAt(s.finance.ledger.events, k, power), EvidenceAt(Next(s, step).finance.ledger.events, k, power);
            has == had || (has.Some? && Signs(s, step, k, power, has.value))
  {
    if step.InFinance? && step.financeStep.Serving? && CommandRuns.TakesEffect(s.finance, step.financeStep) {
      RequestSigns(s, step.financeStep.request, step.financeStep.supply, k, power);
    } else {
      OthersSignNothing(s, step, k, power);
    }
  }

  lemma OthersSignNothing(s: Installation, step: Step, k: Uuid, power: Power)
    requires Valid(s) && !(step.InFinance? && step.financeStep.Serving? && CommandRuns.TakesEffect(s.finance, step.financeStep))
    ensures EvidenceAt(Next(s, step).finance.ledger.events, k, power) == EvidenceAt(s.finance.ledger.events, k, power)
  {
    if step.InFinance? && step.financeStep.Serving? {
      CommandRuns.OnlyEffectiveRequestsWrite(s.finance, step.financeStep);
    } else if step.InFinance? && step.financeStep.Editing? {
      var f := step.financeStep;
      EditSignsNothing(s.finance.ledger, f.ctx, f.eventId, f.expectedVersion, f.update, f.now, k, power);
    }
  }

  // ---- Every run ---------------------------------------------------------------------------

  /** Step `i` of a run writes this evidence. */
  ghost predicate SignedAt(s: Installation, steps: seq<Step>, i: nat, k: Uuid, power: Power, v: Evidence) {
    i < |steps| && Signs(After(s, steps[..i]), steps[i], k, power, v)
  }

  lemma SignedAtPrefix(s: Installation, steps: seq<Step>, n: nat, i: nat, k: Uuid, power: Power, v: Evidence)
    requires i < n <= |steps|
    ensures SignedAt(s, steps[..n], i, k, power, v) <==> SignedAt(s, steps, i, k, power, v)
  {
    assert steps[..n][..i] == steps[..i];
  }

  /**
   The ledger's evidence is exact: a row shows that a member used an Admin's power on it, at a time and for
   a reason, if and only if some step of the run is a request of that member, at that time and with that
   reason, that used the power on the row; and the member owned the workspace when it did.
   */
  lemma {:induction false} EvidenceIsExact(s: Installation, steps: seq<Step>, k: Uuid, power: Power, v: Evidence)
    requires Valid(s) && s.finance.ledger.events == map[]
    ensures EvidenceAt(After(s, steps).finance.ledger.events, k, power) == Some(v) <==> exists i :: SignedAt(s, steps, i, k, power, v)
  {
    if steps != [] {
      var n := |steps| - 1;
      EvidenceIsExact(s, steps[..n], k, power, v);
      RunsStayValid(s, steps[..n]);
      NextSigns(After(s, steps[..n]), steps[n], k, power);
      SignedSoFar(s, steps, k, power, v);
    }
  }

  /** Some step of a run signs if the last one does, or one before it. */
  lemma SignedSoFar(s: Installation, steps: seq<Step>, k: Uuid, power: Power, v: Evidence)
    requires steps != []
    ensures var n := |steps| - 1;
            (exists i :: SignedAt(s, steps, i, k, power, v)) <==>
            (exists i :: SignedAt(s, steps[..n], i, k, power, v)) || Signs(After(s, steps[..n]), steps[n], k, power, v)
  {
    var n := |steps| - 1;
    if Signs(After(s, steps[..n]), steps[n], k, power, v) {
      assert SignedAt(s, steps, n, k, power, v);
    }
    forall i: nat | i < n ensures SignedAt(s, steps[..n], i, k, power, v) <==> SignedAt(s, steps, i, k, power, v) {
      SignedAtPrefix(s, steps, n, i, k, power, v);
    }
    if i :| SignedAt(s, steps, i, k, power, v) {
      assert i == n || SignedAt(s, steps[..n], i, k, power, v);
    }
  }

  /** Each piece of evidence is written by one step only, and never written over. */
  lemma EvidenceIsWrittenOnce(s: Installation, steps: seq<Step>, i: nat, j: nat, k: Uuid, power: Power, v: Evidence,
                              w: Evidence)
    requires Valid(s) && s.finance.ledger.events == map[]
    requires SignedAt(s, steps, i, k, power, v) && SignedAt(s, steps, j, k, power, w)
    ensures i == j && v == w
  {
    if i < j {
      SignedAtPrefix(s, steps, j, i, k, power, v);
      EvidenceIsExact(s, steps[..j], k, power, v);
    } else if j < i {
      SignedAtPrefix(s, steps, i, j, k, power, w);
      EvidenceIsExact(s, steps[..i], k, power, w);
    }
  }

  /** Everyone who has owned the workspace in the course of a run. */
  ghost function Owners(s: Installation, steps: seq<Step>): set<Uuid> {
    {After(s, steps).workspace.owner} + (if steps == [] then {} else Owners(s, steps[..|steps| - 1]))
  }

  lemma {:induction false} OwnerOnTheWay(s: Installation, steps: seq<Step>, i: nat)
    requires i <= |steps|
    ensures After(s, steps[..i]).workspace.owner in Owners(s, steps)
  {
    if i < |steps| {
      OwnerOnTheWay(s, steps[..|steps| - 1], i);
      assert steps[..|steps| - 1][..i] == steps[..i];
    } else {
      assert steps[..i] == steps;
    }
  }

  lemma SignersWereOwners(s: Installation, steps: seq<Step>, k: Uuid, power: Power)
    requires Valid(s) && s.finance.ledger.events == map[]
    ensures var v := EvidenceAt(After(s, steps).finance.ledger.events, k, power);
            v.Some? ==> v.value.who in Owners(s, steps)
  {
    var v := EvidenceAt(After(s, steps).finance.ledger.events, k, power);
    if v.Some? {
      EvidenceIsExact(s, steps, k, power, v.value);
      var i :| SignedAt(s, steps, i, k, power, v.value);
      OwnerOnTheWay(s, steps, i);
    }
  }

  /**
   Whatever an installation has been through, every approval, rejection, reversal, correction and archiving
   in its ledger names a member who was the workspace's owner at some moment of the run, and no decided
   event goes without one.
   */
  lemma AdminPowersWereTheOwners(email: string, accountId: Uuid, membershipId: Uuid, steps: seq<Step>, k: Uuid)
    requires k in After(Installed(email, accountId, membershipId), steps).finance.ledger.events
    ensures var start := Installed(email, accountId, membershipId);
            var e := After(start, steps).finance.ledger.events[k];
            && (e.approval != Pending <==> e.reviewedBy.Some?) && (e.reviewedBy.Some? ==> e.reviewedBy.value in Owners(start, steps))
            && (e.archivedAt.Some? <==> e.archivedBy.Some?) && (e.archivedBy.Some? ==> e.archivedBy.value in Owners(start, steps))
            && (e.reverses.Some? || e.replacementFor.Some? ==> e.createdBy in Owners(start, steps))
  {
    var start := Installed(email, accountId, membershipId);
    InstalledIsValid(email, accountId, membershipId);
    RunsStayValid(start, steps);
    OwnersSigned(start, steps, k);
  }

  lemma OwnersSigned(s: Installation, steps: seq<Step>, k: Uuid)
    requires Valid(s) && s.finance.ledger.events == map[]
    requires AllChecked(After(s, steps).finance.ledger.events) && k in After(s, steps).finance.ledger.events
    ensures var e := After(s, steps).finance.ledger.events[k];
            && (e.approval != Pending <==> e.reviewedBy.Some?) && (e.reviewedBy.Some? ==> e.reviewedBy.value in Owners(s, steps))
            && (e.archivedAt.Some? <==> e.archivedBy.Some?) && (e.archivedBy.Some? ==> e.archivedBy.value in Owners(s, steps))
            && (e.reverses.Some? || e.replacementFor.Some? ==> e.createdBy in Owners(s, steps))
  {
    var rows := After(s, steps).finance.ledger.events;
    assert Checks(rows[k]);
    SignersWereOwners(s, steps, k, Reviewing);
    SignersWereOwners(s, steps, k, Archiving);
    SignersWereOwners(s, steps, k, Correcting);
  }
}
