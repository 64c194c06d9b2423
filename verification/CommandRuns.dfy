/**
 Whole runs: any sequence of requests, edits, category changes and access changes, each atomic.
 */
module CommandRuns {
  import opened Common
  import opened Ledger
  import opened LedgerSafety
  import opened LedgerHistory
  import opened Commands
  import opened CommandSafety
  import opened Runs
  import LedgerAccounts
  import MoneyModel
  import Decimals
  import DecimalText

  datatype Step =
    | Serving(request: Request, supply: Supply)
    | Editing(ctx: Context, eventId: Uuid, expectedVersion: int, update: PendingUpdate, now: Instant)
    | StoringCategory(id: Uuid, category: Category)
    | ChangingAccess(access: Access)

  ghost function Next(db: Db, step: Step): Db {
    match step
    case Serving(r, supply) => Handle(db, r, supply).0
    case Editing(ctx, eventId, version, u, now) => db.(ledger := HandleEdit(db.ledger, ctx, eventId, version, u, now).0)
    case StoringCategory(id, category) => db.(ledger := db.ledger.(categories := db.ledger.categories[id := category]))
    case ChangingAccess(access) => db.(ledger := db.ledger.(access := access))
  }

  ghost function After(db: Db, steps: seq<Step>): Db {
    Run(Next, db, steps)
  }

  lemma AfterOneMore(db: Db, steps: seq<Step>, i: nat)
    requires i < |steps|
    ensures After(db, steps[..i + 1]) == Next(After(db, steps[..i]), steps[i])
  {
    RunOneMore(Next, db, steps, i);
  }

  const EMPTY: Db := Db(Ledger(map[], map[], Access(map[], false)), map[])

  lemma EmptyIsValid()
    ensures DbValid(EMPTY)
  {
    assert Ranked(map[], map[], 0);
  }

  // ---- Every run ---------------------------------------------------------------------------

  lemma PreparedUpdateIsAccepted(u: PendingUpdate)
    requires PrepareUpdate(u).Ok?
    ensures ChangesAccepted(PrepareUpdate(u).value)
  {
    if u.money.Some? {
      MoneyModel.SubmittedIsExact(u.money.value.0, u.money.value.1);
    }
  }

  lemma HandleEditKeepsValid(l: Ledger, ctx: Context, eventId: Uuid, version: int, u: PendingUpdate, now: Instant)
    requires Valid(l)
    ensures Valid(HandleEdit(l, ctx, eventId, version, u, now).0)
  {
    if PrepareUpdate(u).Ok? {
      PreparedUpdateIsAccepted(u);
      EditKeepsValid(l, ctx, eventId, version, PrepareUpdate(u).value, now);
    }
  }

  lemma HandleEditIsLater(l: Ledger, ctx: Context, eventId: Uuid, version: int, u: PendingUpdate, now: Instant)
    requires Valid(l)
    ensures Later(l.events, HandleEdit(l, ctx, eventId, version, u, now).0.events)
  {
    if NamesNothing(u) || ctx.role != Contributor || PrepareUpdate(u).Err? {
      NothingHappenedIsLater(l.events);
    } else {
      EditIsLater(l, ctx, eventId, version, PrepareUpdate(u).value, now);
    }
  }

  lemma CategoryKeepsValid(l: Ledger, id: Uuid, category: Category)
    requires Valid(l)
    ensures Valid(l.(categories := l.categories[id := category]))
  {
  }

  lemma AccessKeepsValid(l: Ledger, access: Access)
    requires Valid(l)
    ensures Valid(l.(access := access))
  {
  }

  lemma NextKeepsValid(db: Db, step: Step)
    requires DbValid(db)
    ensures DbValid(Next(db, step))
  {
    match step
    case Serving(r, supply) => HandleKeepsValid(db, r, supply);
    case Editing(ctx, eventId, version, u, now) => HandleEditKeepsValid(db.ledger, ctx, eventId, version, u, now);
    case StoringCategory(id, category) => CategoryKeepsValid(db.ledger, id, category);
    case ChangingAccess(access) => AccessKeepsValid(db.ledger, access);
  }

  /** Safety over runs: the ledger stays valid, the records sound, and no claim is left in progress. */
  lemma {:induction false} RunsStayValid(db: Db, steps: seq<Step>)
    requires DbValid(db)
    ensures DbValid(After(db, steps))
  {
    if steps != [] {
      RunsStayValid(db, steps[..|steps| - 1]);
      NextKeepsValid(After(db, steps[..|steps| - 1]), steps[|steps| - 1]);
    }
  }

  lemma CommittedLedger(db: Db, r: Request, supply: Supply, ledger: Ledger, performed: Result<Answer, Error>)
    requires performed.Err? ==> ledger == db.ledger
    ensures Committed(db, r, supply, ledger, performed).ledger == ledger
  {
  }

  lemma HandleIsLater(db: Db, r: Request, supply: Supply)
    requires DbValid(db)
    ensures Later(db.ledger.events, Handle(db, r, supply).0.ledger.events)
  {
    NothingHappenedIsLater(db.ledger.events);
    if Admit(db.ledger, r).Err? || !Starts(db, r, supply) {
      NotStartedChangesNothing(db, r, supply);
    } else {
      var action := Admit(db.ledger, r).value;
      var (ledger, performed) := Perform(db.ledger, r, action, supply);
      PerformIsLater(db.ledger, r, action, supply);
      PerformChangesOnlyEvents(db.ledger, r, action, supply);
      ExecutionEnds(db, r, supply, ledger, performed);
      CommittedLedger(db, r, supply, ledger, performed);
    }
  }

  lemma NextIsLater(db: Db, step: Step)
    requires DbValid(db)
    ensures Later(db.ledger.events, Next(db, step).ledger.events)
  {
    match step
    case Serving(r, supply) =>
      HandleIsLater(db, r, supply);
      assert Next(db, step) == Handle(db, r, supply).0;
    case Editing(ctx, eventId, version, u, now) =>
      HandleEditIsLater(db.ledger, ctx, eventId, version, u, now);
      assert Next(db, step).ledger == HandleEdit(db.ledger, ctx, eventId, version, u, now).0;
    case _ =>
      NothingHappenedIsLater(db.ledger.events);
      assert Next(db, step).ledger.events == db.ledger.events;
  }

  lemma NextIsLaterToo(rows: Rows, db: Db, step: Step)
    requires DbValid(db) && Later(rows, db.ledger.events)
    ensures Later(rows, Next(db, step).ledger.events)
  {
    NextIsLater(db, step);
    LaterTransitively(rows, db.ledger.events, Next(db, step).ledger.events);
  }

  /** Nothing a run has recorded is ever taken back: rows stay, approved facts stay, reversals stay as they are. */
  lemma {:induction false} RunsOnlyMoveForward(db: Db, steps: seq<Step>)
    requires DbValid(db)
    ensures Later(db.ledger.events, After(db, steps).ledger.events)
  {
    if steps == [] {
      NothingHappenedIsLater(db.ledger.events);
    } else {
      var before := After(db, steps[..|steps| - 1]);
      RunsOnlyMoveForward(db, steps[..|steps| - 1]);
      RunsStayValid(db, steps[..|steps| - 1]);
      NextIsLaterToo(db.ledger.events, before, steps[|steps| - 1]);
    }
  }

  /** Conservation over runs. */
  lemma RunsBalance(steps: seq<Step>, currency: string)
    ensures var rows := After(EMPTY, steps).ledger.events;
            LedgerAccounts.Books(rows, currency) == LedgerAccounts.Balance(rows, currency)
  {
    EmptyIsValid();
    RunsStayValid(EMPTY, steps);
    LedgerAccounts.BooksBalance(After(EMPTY, steps).ledger, currency);
  }

  /** In every reachable ledger, building money from any stored row gives its exact amount back. */
  lemma StoredMoneyIsShown(steps: seq<Step>, k: Uuid)
    requires k in After(EMPTY, steps).ledger.events
    ensures var e := After(EMPTY, steps).ledger.events[k];
            && MoneyModel.Supported(e.currency) && e.amount > 0
            && (var shown := MoneyModel.FromCalculated(MoneyModel.Column(e.amount), MoneyModel.RequireCurrency(e.currency).value);
                shown.Ok? && Decimals.SameNumber(shown.value.amount, MoneyModel.Column(e.amount)))
  {
    EmptyIsValid();
    RunsStayValid(EMPTY, steps);
    var e := After(EMPTY, steps).ledger.events[k];
    assert MoneyModel.StoredExact(e.amount, e.currency);
    MoneyModel.AmountLimit();
    MoneyModel.RepresentationIsExact(e.amount, e.currency);
  }

  /** In every reachable ledger, corrections form chains whose only effective event can be the last. */
  lemma CorrectionChainsInRuns(steps: seq<Step>, chain: seq<Uuid>)
    requires CorrectionChain(After(EMPTY, steps).ledger.events, chain)
    ensures var rows := After(EMPTY, steps).ledger.events;
            && (forall i, j :: 0 <= i < j < |chain| ==> chain[i] != chain[j])
            && (forall i :: 0 <= i < |chain| - 1 ==> rows[chain[i]].posting == Reversed)
  {
    EmptyIsValid();
    RunsStayValid(EMPTY, steps);
    CorrectionChainsEndEffective(After(EMPTY, steps).ledger.events, chain);
  }

  // ---- At most one effect ------------------------------------------------------------------

  /** The step runs its command, rather than being refused or replayed. */
  ghost predicate TakesEffect(db: Db, step: Step) {
    && step.Serving?
    && var reply := Handle(db, step.request, step.supply).1;
       reply.Ok? && !reply.value.replayed
  }

  /** A request that is refused or replayed leaves the ledger alone. */
  lemma OnlyEffectiveRequestsWrite(db: Db, step: Step)
    requires DbValid(db) && step.Serving? && !TakesEffect(db, step)
    ensures Next(db, step).ledger == db.ledger
  {
    var r, supply := step.request, step.supply;
    if Admit(db.ledger, r).Err? || !Starts(db, r, supply) {
      NotStartedChangesNothing(db, r, supply);
    } else {
      var (ledger, performed) := Perform(db.ledger, r, Admit(db.ledger, r).value, supply);
      PerformChangesOnlyEvents(db.ledger, r, Admit(db.ledger, r).value, supply);
      ExecutionEnds(db, r, supply, ledger, performed);
      CommittedLedger(db, r, supply, ledger, performed);
    }
  }

  lemma EffectiveRequestsPerform(db: Db, step: Step)
    requires DbValid(db) && TakesEffect(db, step)
    ensures Admit(db.ledger, step.request).Ok? && Starts(db, step.request, step.supply)
    ensures var (ledger, performed) := Perform(db.ledger, step.request, Admit(db.ledger, step.request).value, step.supply);
            && performed.Ok? && Handle(db, step.request, step.supply).1 == Ok(Reply(performed.value, false))
            && Next(db, step) == Committed(db, step.request, step.supply, ledger, performed)
            && Next(db, step).ledger == ledger
  {
    var r, supply := step.request, step.supply;
    if Admit(db.ledger, r).Err? || !Starts(db, r, supply) {
      NotStartedChangesNothing(db, r, supply);
    } else {
      var (ledger, performed) := Perform(db.ledger, r, Admit(db.ledger, r).value, supply);
      ExecutionEnds(db, r, supply, ledger, performed);
    }
  }

  lemma SpentAlike(l: Ledger, m: Ledger, r: Request, s: Request, rows: Rows)
    requires Admit(l, r).Ok? && Admit(m, s).Ok? && r.command == s.command
    requires Spent(rows, Admit(l, r).value, r.operationId) && r.operationId == s.operationId
    ensures Spent(rows, Admit(m, s).value, s.operationId)
  {
  }

  /**
   At most one effect: once a command has run under an operation id, no later request for it runs again,
   whoever sends it, under whatever key or version, and however long after its record has expired.
   */
  lemma AtMostOnce(db: Db, steps: seq<Step>, i: nat, j: nat)
    requires DbValid(db) && i < j < |steps| && steps[i].Serving? && steps[j].Serving?
    requires steps[i].request.command == steps[j].request.command && steps[i].request.operationId == steps[j].request.operationId
    requires TakesEffect(After(db, steps[..i]), steps[i])
    ensures !TakesEffect(After(db, steps[..j]), steps[j])
    ensures After(db, steps[..j + 1]).ledger == After(db, steps[..j]).ledger
  {
    var r, s := steps[i].request, steps[j].request;
    var before, later := After(db, steps[..i]), After(db, steps[..j]);
    RunsStayValid(db, steps[..i]);
    RunsStayValid(db, steps[..j]);
    EffectiveRequestsPerform(before, steps[i]);
    var action := Admit(before.ledger, r).value;
    PerformSpends(before.ledger, r, action, steps[i].supply);
    AfterOneMore(db, steps, i);
    SegmentIsLater(db, steps, i + 1, j);
    SpentForGood(After(db, steps[..i + 1]).ledger.events, later.ledger.events, action, r.operationId);
    if TakesEffect(later, steps[j]) {
      EffectiveRequestsPerform(later, steps[j]);
      SpentAlike(before.ledger, later.ledger, r, s, later.ledger.events);
      SpentFails(later.ledger, s, Admit(later.ledger, s).value, steps[j].supply);
      assert false;
    }
    OnlyEffectiveRequestsWrite(later, steps[j]);
    AfterOneMore(db, steps, j);
  }

  lemma SegmentIsLater(db: Db, steps: seq<Step>, i: nat, j: nat)
    requires DbValid(db) && i <= j <= |steps|
    ensures Later(After(db, steps[..i]).ledger.events, After(db, steps[..j]).ledger.events)
  {
    RunsStayValid(db, steps[..i]);
    RunsOnlyMoveForward(After(db, steps[..i]), steps[i..j]);
    RunSplits(Next, db, steps, i, j);
  }

  // ---- No lost updates ---------------------------------------------------------------------

  /** A command that names an event and the version of it the caller has read. */
  predicate NamesVersion(c: Command, eventId: Uuid) {
    match c
    case Reverse(id, _, _, _) => id == eventId
    case Correct(id, _, _, _, _) => id == eventId
    case Archive(id, _, _) => id == eventId
    case _ => false
  }

  /** The step writes an event on the strength of the version its caller has read. */
  ghost predicate WritesVersion(db: Db, step: Step, eventId: Uuid, version: int) {
    match step
    case Serving(r, _) => TakesEffect(db, step) && NamesVersion(r.command, eventId) && r.expectedVersion == version
    case Editing(ctx, id, expected, u, now) =>
      id == eventId && expected == version && HandleEdit(db.ledger, ctx, id, expected, u, now).1.Ok?
    case _ => false
  }

  /** The event was at the version, and has moved past it. */
  predicate WrittenOver(rows: Rows, after: Rows, eventId: Uuid, version: int) {
    eventId in rows && rows[eventId].version == version && eventId in after && after[eventId].version > version
  }

  lemma ReversalRaisesVersion(l: Ledger, ctx: Context, a: ReversalArgs, version: int, supply: Supply)
    requires RowsValid(l.events, l.categories) && ReverseEvent(l, ctx, a, version, supply).1.Ok?
    ensures WrittenOver(l.events, ReverseEvent(l, ctx, a, version, supply).0.events, a.eventId, version)
  {
    ReverseWrote(l, ctx, a, version, supply);
  }

  lemma ArchivingRaisesVersion(l: Ledger, ctx: Context, eventId: Uuid, version: int, reason: Reason, now: Instant)
    requires Valid(l) && ArchiveEvent(l, ctx, eventId, version, reason, now).1.Ok?
    ensures WrittenOver(l.events, ArchiveEvent(l, ctx, eventId, version, reason, now).0.events, eventId, version)
  {
    ArchiveWrote(l, ctx, eventId, version, reason, now);
  }

  lemma AdmittedForEvent(l: Ledger, r: Request, eventId: Uuid)
    requires Admit(l, r).Ok? && NamesVersion(r.command, eventId)
    ensures var action := Admit(l, r).value;
            (action.ReverseAction? && action.args.eventId == eventId) || (action.ArchiveAction? && action.eventId == eventId)
  {
  }

  lemma PerformRaisesVersion(l: Ledger, r: Request, action: Action, supply: Supply, eventId: Uuid)
    requires Valid(l) && Perform(l, r, action, supply).1.Ok?
    requires (action.ReverseAction? && action.args.eventId == eventId) || (action.ArchiveAction? && action.eventId == eventId)
    ensures WrittenOver(l.events, Perform(l, r, action, supply).0.events, eventId, r.expectedVersion)
  {
    if action.ReverseAction? {
      ReversalRaisesVersion(l, r.ctx, action.args, r.expectedVersion, supply);
    } else {
      ArchivingRaisesVersion(l, r.ctx, eventId, r.expectedVersion, action.reason, supply.now);
    }
  }

  lemma EditRaisesVersion(l: Ledger, ctx: Context, eventId: Uuid, version: int, u: PendingUpdate, now: Instant)
    requires WellKeyed(l.events) && HandleEdit(l, ctx, eventId, version, u, now).1.Ok?
    ensures WrittenOver(l.events, HandleEdit(l, ctx, eventId, version, u, now).0.events, eventId, version)
  {
    EditNeeds(l, ctx, eventId, version, PrepareUpdate(u).value, now);
    EditWrote(l, ctx, eventId, version, PrepareUpdate(u).value, now);
  }

  lemma WritesRaiseVersion(db: Db, step: Step, eventId: Uuid, version: int)
    requires DbValid(db) && WritesVersion(db, step, eventId, version)
    ensures WrittenOver(db.ledger.events, Next(db, step).ledger.events, eventId, version)
  {
    match step
    case Serving(r, supply) =>
      EffectiveRequestsPerform(db, step);
      AdmittedForEvent(db.ledger, r, eventId);
      PerformRaisesVersion(db.ledger, r, Admit(db.ledger, r).value, supply, eventId);
    case Editing(ctx, id, expected, u, now) => EditRaisesVersion(db.ledger, ctx, id, expected, u, now);
  }

  lemma StaysPast(rows: Rows, after: Rows, eventId: Uuid, version: int)
    requires AllEvolve(rows, after) && eventId in rows && rows[eventId].version > version
    ensures eventId in after && after[eventId].version > version
  {
  }

  /**
   No lost updates: of all the edits, reversals, corrections and archivings of a run that rest on the same
   reading of an event, whoever sends them, only the first one writes.
   */
  lemma OneWritePerVersion(db: Db, steps: seq<Step>, i: nat, j: nat, eventId: Uuid, version: int)
    requires DbValid(db) && i < j < |steps| && WritesVersion(After(db, steps[..i]), steps[i], eventId, version)
    ensures !WritesVersion(After(db, steps[..j]), steps[j], eventId, version)
  {
    RunsStayValid(db, steps[..i]);
    RunsStayValid(db, steps[..j]);
    WritesRaiseVersion(After(db, steps[..i]), steps[i], eventId, version);
    AfterOneMore(db, steps, i);
    SegmentIsLater(db, steps, i + 1, j);
    StaysPast(After(db, steps[..i + 1]).ledger.events, After(db, steps[..j]).ledger.events, eventId, version);
    if WritesVersion(After(db, steps[..j]), steps[j], eventId, version) {
      WritesRaiseVersion(After(db, steps[..j]), steps[j], eventId, version);
      assert false;
    }
  }

  // ---- A first request ---------------------------------------------------------------------

  /** Five yen, as a submission. */
  lemma FiveYen()
    ensures MoneyModel.Submitted("5", "JPY").Ok?
  {
    DecimalText.MatchesExactlyNumerals("5", false, DecimalText.Numeral(false, "5", None));
    assert "5" + "" == "5" && "5"[..0] == "";
    assert DecimalText.Number("5") == 5;
    assert DecimalText.ParseExactDecimal("5", Decimals.MONEY_STORAGE, Some(0), false) == Ok(Decimals.Finite(false, 5, 0));
    assert MoneyModel.ParseOrdinary("5", "JPY").Ok?;
    MoneyModel.SubmittedTextIsPrintedBack("5", "JPY");
  }

  /** A workspace with one administrator and one category, before anything is recorded. */
  function Opened(): Db {
    Db(Ledger(map[], map[9 := Category(ForBoth, None, true)], Access(map[1 := Admin], true)), map[])
  }

  function FirstRequest(): Request {
    Request(Context(1, Admin), CreateManual(Manual(ManualIncome, Household, 0, 9, "5", "JPY", Cash, None, None, None)), 20, 21, 30, 40, 1)
  }

  lemma OpenedIsValid()
    ensures DbValid(Opened())
  {
    assert Ranked(map[], map[], 0);
  }

  lemma FirstRequestIsAdmitted()
    ensures Admit(Opened().ledger, FirstRequest()).Ok?
  {
    FiveYen();
  }

  /** What the run theorems start from does happen: a first request takes effect. */
  lemma FirstRequestTakesEffect(supply: Supply)
    ensures DbValid(Opened()) && TakesEffect(Opened(), Serving(FirstRequest(), supply))
  {
    OpenedIsValid();
    FirstRequestIsAdmitted();
    assert Starts(Opened(), FirstRequest(), supply);
    RequestsTakeEffect(Opened(), FirstRequest(), supply);
  }
}
