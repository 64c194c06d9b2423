/**
 Short runs that show where the finance commands fall short of their promises. Each one starts with
 nothing stored, and each is an instance of the general theorem it names.
 */
module CommandStories {
  import opened Common
  import opened Ledger
  import opened LedgerSafety
  import opened Idempotency
  import opened Commands
  import opened CommandSafety
  import opened CommandRuns
  import opened CommandReplays
  import MoneyModel

  const ADMIN: Context := Context(1, Admin)

  const FIRST: Supply := Supply(100, 101, 102, 103, 0)
  const SECOND: Supply := Supply(110, 111, 112, 113, HOUR)
  const THIRD: Supply := Supply(120, 121, 122, 123, 2 * HOUR)

  /** An administrator joins, a category is added, and five yen are recorded. */
  const OPENING: seq<Step> := [
    StoringCategory(9, Category(ForBoth, None, true)),
    ChangingAccess(Access(map[1 := Admin], true)),
    Serving(FirstRequest(), FIRST)]

  /** Reversing and archiving requests for an event, each with ids of its own. */
  function Reversing(expectedVersion: int): Request {
    Request(ADMIN, Reverse(100, 1, EnteredInError, true), 22, 23, 31, 41, expectedVersion)
  }

  function Archiving(eventId: Uuid): Request {
    Request(ADMIN, Archive(eventId, EnteredInError, true), 24, 25, 32, 42, 1)
  }

  // ---- How single requests end -------------------------------------------------------------

  lemma FreeKeysStart(db: Db, r: Request, supply: Supply)
    requires MemberValid(db.ledger.access, r.ctx) && MayClaim(r.ctx.role, OperationOf(r.command))
    requires Insertable(db.records, NewRecord(r.ctx, MetadataOf(r), supply))
    ensures Starts(db, r, supply) && Claimed(db, r, supply) == db.records[supply.recordId := NewRecord(r.ctx, MetadataOf(r), supply)]
  {
  }

  /** A creation on a database that holds nothing yet. */
  lemma FirstCreationCommits(db: Db, r: Request, d: Draft, supply: Supply)
    requires DbValid(db) && db.records == map[] && db.ledger.events == map[]
    requires Admit(db.ledger, r) == Ok(CreateAction(d)) && MemberValid(db.ledger.access, r.ctx) && r.command.CreateManual?
    ensures var e := NewEvent(r.ctx, r.operationId, d, supply.now, supply.eventId);
            && Handle(db, r, supply).1 == Ok(Reply(OneEvent(e), false))
            && Handle(db, r, supply).0 == Db(db.ledger.(events := map[supply.eventId := e]),
                                             map[supply.recordId := Final(r, supply, SuccessOutcome(r.command, OneEvent(e)), Completed)])
  {
    AdmittedMayClaim(db.ledger, r);
    FreeKeysStart(db, r, supply);
    AdmittedIsPrepared(db.ledger, r);
    var e := NewEvent(r.ctx, r.operationId, d, supply.now, supply.eventId);
    var ledger := db.ledger.(events := map[supply.eventId := e]);
    FirstCreationPerforms(db.ledger, r, d, supply);
    ExecutionEnds(db, r, supply, ledger, Ok(OneEvent(e)));
    FirstRecord(db, r, supply, ledger, OneEvent(e));
  }

  lemma FirstRecord(db: Db, r: Request, supply: Supply, ledger: Ledger, answer: Answer)
    requires Claimed(db, r, supply) == map[supply.recordId := NewRecord(r.ctx, MetadataOf(r), supply)]
    ensures Committed(db, r, supply, ledger, Ok(answer)) == Db(ledger, map[supply.recordId := Final(r, supply, SuccessOutcome(r.command, answer), Completed)])
  {
  }

  lemma FirstCreationPerforms(l: Ledger, r: Request, d: Draft, supply: Supply)
    requires l.events == map[] && DraftAccepted(d) && CategoryError(l, r.ctx, d.categoryId, d.kind, d.activity).None?
    ensures var e := NewEvent(r.ctx, r.operationId, d, supply.now, supply.eventId);
            Perform(l, r, CreateAction(d), supply) == (l.(events := map[supply.eventId := e]), Ok(OneEvent(e)))
  {
    CreateGoesThrough(l, r.ctx, r.operationId, d, supply.now, supply.eventId);
    var e := NewEvent(r.ctx, r.operationId, d, supply.now, supply.eventId);
    assert l.events[supply.eventId := e] == map[supply.eventId := e];
  }

  /** A reversal at a wrong version is recorded as such. */
  lemma WrongVersionIsRecorded(db: Db, r: Request, a: ReversalArgs, supply: Supply)
    requires DbValid(db) && Admit(db.ledger, r) == Ok(ReverseAction(a)) && Starts(db, r, supply) && supply.recordId !in db.records
    requires FinanceValid(db.ledger.access, r.ctx) && a.eventId in db.ledger.events && db.ledger.events[a.eventId].version != r.expectedVersion
    ensures Handle(db, r, supply).1 == Err(VersionMismatch)
    ensures Handle(db, r, supply).0 != db && Handle(db, r, supply).0.ledger == db.ledger
  {
    WrongVersionFails(db.ledger, r, a, supply);
    ExecutionEnds(db, r, supply, db.ledger, Err(VersionMismatch));
    FailureIsCommitted(db, r, supply);
  }

  lemma FailureIsCommitted(db: Db, r: Request, supply: Supply)
    requires FailureOutcome(r.command, VersionMismatch).Some?
    ensures var after := Committed(db, r, supply, db.ledger, Err(VersionMismatch));
            after.ledger == db.ledger && supply.recordId in after.records
  {
  }

  lemma WrongVersionFails(l: Ledger, r: Request, a: ReversalArgs, supply: Supply)
    requires Admit(l, r) == Ok(ReverseAction(a))
    requires FinanceValid(l.access, r.ctx) && a.eventId in l.events && l.events[a.eventId].version != r.expectedVersion
    ensures Perform(l, r, ReverseAction(a), supply) == (l, Err(VersionMismatch))
    ensures FailureOutcome(r.command, VersionMismatch).Some?
  {
  }

  /** Archiving a reversal is rolled back. */
  lemma ArchivingIsRolledBack(db: Db, r: Request, k: Uuid, supply: Supply)
    requires DbValid(db) && r.command.Archive? && r.ctx.role == Admin && Admit(db.ledger, r) == Ok(ArchiveAction(k, r.command.reason)) && Starts(db, r, supply)
    requires FinanceValid(db.ledger.access, r.ctx) && k in db.ledger.events && db.ledger.events[k].version == r.expectedVersion
    requires db.ledger.events[k].approval != Pending && db.ledger.events[k].archivedAt.None? && db.ledger.events[k].reverses.Some?
    ensures Handle(db, r, supply) == (db, Err(IntegrityViolation))
  {
    ArchivingFails(db.ledger, r, k, supply);
    RefusedWritesAreRolledBack(db, r, ArchiveAction(k, r.command.reason), supply);
  }

  lemma RefusedWritesAreRolledBack(db: Db, r: Request, action: Action, supply: Supply)
    requires DbValid(db) && Admit(db.ledger, r) == Ok(action) && Starts(db, r, supply)
    requires Perform(db.ledger, r, action, supply) == (db.ledger, Err(IntegrityViolation))
    ensures Handle(db, r, supply) == (db, Err(IntegrityViolation))
  {
    ExecutionEnds(db, r, supply, db.ledger, Err(IntegrityViolation));
    FailureIsRolledBack(db, r, supply, db.ledger);
  }

  lemma FailureIsRolledBack(db: Db, r: Request, supply: Supply, ledger: Ledger)
    ensures Committed(db, r, supply, ledger, Err(IntegrityViolation)) == db
  {
  }

  lemma ArchivingFails(l: Ledger, r: Request, k: Uuid, supply: Supply)
    requires Valid(l) && r.command.Archive? && r.ctx.role == Admin
    requires FinanceValid(l.access, r.ctx) && k in l.events && l.events[k].version == r.expectedVersion
    requires l.events[k].approval != Pending && l.events[k].archivedAt.None? && l.events[k].reverses.Some?
    ensures Perform(l, r, ArchiveAction(k, r.command.reason), supply) == (l, Err(IntegrityViolation))
  {
    ArchiveGoesThrough(l, r.ctx, k, r.expectedVersion, r.command.reason, supply.now);
    RefusedArchive(l, r, k, r.command.reason, supply);
  }

  lemma RefusedArchive(l: Ledger, r: Request, k: Uuid, reason: Reason, supply: Supply)
    requires ArchiveEvent(l, r.ctx, k, r.expectedVersion, reason, supply.now).1 == Err(IntegrityViolation)
    ensures Perform(l, r, ArchiveAction(k, reason), supply) == (l, Err(IntegrityViolation))
  {
  }

  // ---- The opening -------------------------------------------------------------------------

  function FiveYenDraft(): Draft {
    FiveYen();
    var money := MoneyModel.Submitted("5", "JPY").value;
    DraftOf(FirstRequest().command.manual, money.0, money.1)
  }

  function Income(): Event {
    NewEvent(ADMIN, 20, FiveYenDraft(), 0, 100)
  }

  /** After the creation. */
  function Created(): Db {
    Db(Opened().ledger.(events := map[100 := Income()]),
       map[102 := Final(FirstRequest(), FIRST, SuccessOutcome(FirstRequest().command, OneEvent(Income())), Completed)])
  }

  lemma FirstIsAdmitted()
    ensures Admit(Opened().ledger, FirstRequest()) == Ok(CreateAction(FiveYenDraft()))
  {
    FiveYen();
  }

  lemma FirstIsCommitted()
    ensures DbValid(Opened()) && DbValid(Created())
    ensures Handle(Opened(), FirstRequest(), FIRST) == (Created(), Ok(Reply(OneEvent(Income()), false)))
  {
    FirstIsAdmitted();
    OpenedIsValid();
    FirstCreationCommits(Opened(), FirstRequest(), FiveYenDraft(), FIRST);
    HandleKeepsValid(Opened(), FirstRequest(), FIRST);
  }

  lemma OpeningEnds()
    ensures After(EMPTY, OPENING[..2]) == Opened() && After(EMPTY, OPENING) == Created()
  {
    FirstIsCommitted();
    AfterOneMore(EMPTY, OPENING, 0);
    AfterOneMore(EMPTY, OPENING, 1);
    AfterOneMore(EMPTY, OPENING, 2);
    assert OPENING[..0] == [] && OPENING[..3] == OPENING;
  }

  lemma ShortRuns(db: Db, step: Step)
    ensures After(db, []) == db && After(db, [step]) == Next(db, step)
  {
    AfterOneMore(db, [step], 0);
    assert [step][..0] == [] && [step][..1] == [step];
  }

  /** What the opening leaves behind, as far as the stories need it. */
  ghost predicate Recorded(db: Db) {
    && DbValid(db) && db.ledger.access == Access(map[1 := Admin], true)
    && 100 in db.ledger.events && db.ledger.events[100] == Income()
    && (forall k {:trigger db.ledger.events[k]} :: k in db.ledger.events ==> k == 100)
    && (forall k {:trigger db.records[k]} :: k in db.records ==> k == 102 && db.records[k].operationId == 20 && db.records[k].keyDigest == 30)
  }

  lemma CreatedIsRecorded()
    ensures Recorded(Created())
  {
    FirstIsCommitted();
  }

  lemma IncomeIsReversible()
    ensures Reversible(Income()) && Income().version == 1 && Income().operationId == 20
  {
  }

  // ---- A replay that is refused ------------------------------------------------------------

  const DEACTIVATING: Step := StoringCategory(9, Category(ForBoth, None, false))

  lemma DeactivatedCategory(later: Db, r: Request)
    requires later.ledger.access == Access(map[1 := Admin], true) && r == FirstRequest()
    requires 9 in later.ledger.categories && !later.ledger.categories[9].active
    ensures FinanceValid(later.ledger.access, r.ctx) && CategoryRefusal(later.ledger, r) == Some(NotFound)
  {
  }

  /** A creation succeeds, its category is deactivated, and its repetition is refused as not found. */
  lemma ReplayOfDeactivatedCategory()
    ensures TakesEffect(After(EMPTY, OPENING[..2]), OPENING[2])
    ensures var later := Next(After(EMPTY, OPENING), DEACTIVATING);
            Handle(later, FirstRequest(), SECOND) == (later, Err(NotFound))
  {
    OpeningEnds();
    FirstIsCommitted();
    ShortRuns(Created(), DEACTIVATING);
    DeactivatedCategory(Next(Created(), DEACTIVATING), FirstRequest());
    RefusedLater(Opened(), FirstRequest(), FIRST, Created(), DEACTIVATING, SECOND);
  }

  lemma RefusedLater(db: Db, r: Request, supply: Supply, done: Db, step: Step, supply': Supply)
    requires DbValid(db) && TakesEffect(db, Serving(r, supply)) && Handle(db, r, supply).0 == done && !step.Serving?
    requires supply'.now < supply.now + TERMINAL_RETENTION && FinanceValid(Next(done, step).ledger.access, r.ctx)
    requires CategoryRefusal(Next(done, step).ledger, r).Some?
    ensures Handle(Next(done, step), r, supply') == (Next(done, step), Err(CategoryRefusal(Next(done, step).ledger, r).value))
  {
    ShortRuns(done, step);
    ReplaysAreFaithful(db, r, supply, [step], r, supply');
  }

  // ---- A repetition after fourteen days ----------------------------------------------------

  lemma RepeatedAtOnce(db: Db, r: Request, supply: Supply, done: Db, supply': Supply)
    requires DbValid(db) && TakesEffect(db, Serving(r, supply)) && Handle(db, r, supply).0 == done
    requires FinanceValid(done.ledger.access, r.ctx) && CategoryRefusal(done.ledger, r).None?
    ensures Handle(done, r, supply').1.Ok? <==> supply'.now < supply.now + TERMINAL_RETENTION
  {
    ShortRuns(done, DEACTIVATING);
    RetentionIsExact(db, r, supply, [], r, supply');
  }

  lemma ActiveCategory(later: Db, r: Request)
    requires later.ledger.access == Access(map[1 := Admin], true) && r == FirstRequest()
    requires 9 in later.ledger.categories && later.ledger.categories[9] == Category(ForBoth, None, true)
    ensures FinanceValid(later.ledger.access, r.ctx) && CategoryRefusal(later.ledger, r).None?
  {
  }

  /** Just before fourteen days have passed a creation is answered again; from then on its exact repetition fails. */
  lemma RepetitionAfterRetention(supply: Supply)
    ensures TakesEffect(After(EMPTY, OPENING[..2]), OPENING[2])
    ensures Handle(After(EMPTY, OPENING), FirstRequest(), supply).1.Ok? <==> supply.now < 14 * DAY
  {
    OpeningEnds();
    FirstIsCommitted();
    ActiveCategory(Created(), FirstRequest());
    RepeatedAtOnce(Opened(), FirstRequest(), FIRST, Created(), supply);
  }

  // ---- A stale version ---------------------------------------------------------------------

  lemma ReversingIsAdmitted(db: Db, r: Request, supply: Supply, version: int)
    requires Recorded(db) && r == Reversing(version) && supply == SECOND
    ensures Admit(db.ledger, r) == Ok(ReverseAction(ReversalArgs(100, 22, 23, 1, EnteredInError, None)))
    ensures FinanceValid(db.ledger.access, r.ctx) && Starts(db, r, supply) && supply.recordId !in db.records
  {
    assert Insertable(db.records, NewRecord(r.ctx, MetadataOf(r), supply));
    FreeKeysStart(db, r, supply);
  }

  lemma FailsAlike(db: Db, r: Request, supply: Supply, again: Request, supply': Supply)
    requires DbValid(db) && Handle(db, r, supply).1.Err? && Handle(db, r, supply).0 != db && SameRequest(r, again)
    requires supply'.now < supply.now + TERMINAL_RETENTION && r.command.Reverse?
    requires MemberValid(Handle(db, r, supply).0.ledger.access, r.ctx)
    ensures Handle(Handle(db, r, supply).0, again, supply') == (Handle(db, r, supply).0, Err(Handle(db, r, supply).1.error))
  {
    ShortRuns(Handle(db, r, supply).0, DEACTIVATING);
    FailuresRepeat(db, r, supply, [], again, supply');
  }

  lemma StaleVersionOn(db: Db, r: Request, again: Request)
    requires Recorded(db) && r == Reversing(7) && again == Reversing(1)
    ensures Handle(db, r, SECOND).1 == Err(VersionMismatch)
    ensures var failed := Handle(db, r, SECOND).0;
            && 100 in failed.ledger.events && failed.ledger.events[100].version == again.expectedVersion
            && Handle(failed, again, THIRD) == (failed, Err(VersionMismatch))
  {
    IncomeIsReversible();
    ReversingIsAdmitted(db, r, SECOND, 7);
    WrongVersionIsRecorded(db, r, ReversalArgs(100, 22, 23, 1, EnteredInError, None), SECOND);
    FailsAlike(db, r, SECOND, again, THIRD);
  }

  /** A reversal at a wrong version fails; repeated with the right version under the same key it fails alike. */
  lemma CorrectedVersionFailsAlike()
    ensures Handle(After(EMPTY, OPENING), Reversing(7), SECOND).1 == Err(VersionMismatch)
    ensures var failed := Handle(After(EMPTY, OPENING), Reversing(7), SECOND).0;
            && 100 in failed.ledger.events && failed.ledger.events[100].version == 1
            && Handle(failed, Reversing(1), THIRD) == (failed, Err(VersionMismatch))
  {
    OpeningEnds();
    CreatedIsRecorded();
    StaleVersionOn(Created(), Reversing(7), Reversing(1));
  }

  // ---- An archive that cannot succeed ------------------------------------------------------

  lemma ReversalTakesPlace(db: Db, r: Request, supply: Supply)
    requires Recorded(db) && r == Reversing(1) && supply == SECOND
    ensures TakesEffect(db, Serving(r, supply))
  {
    IncomeIsReversible();
    ReversingIsAdmitted(db, r, supply, 1);
    RequestsTakeEffect(db, r, supply);
  }

  /** What the reversal leaves, as far as archiving its row is concerned. */
  ghost predicate ReversalStored(db: Db) {
    && DbValid(db) && db.ledger.access == Access(map[1 := Admin], true)
    && 110 in db.ledger.events && db.ledger.events[110].version == 1 && db.ledger.events[110].reverses == Some(100)
    && db.ledger.events[110].approval == Approved && db.ledger.events[110].archivedAt.None?
    && (forall k {:trigger db.records[k]} :: k in db.records ==>
          k < 120 && db.records[k].id < 120 && db.records[k].operationId < 24 && db.records[k].keyDigest < 32)
  }

  lemma ReversalRow(l: Ledger, ctx: Context, a: ReversalArgs, supply: Supply)
    requires RowsValid(l.events, l.categories) && ReverseEvent(l, ctx, a, 1, supply).1.Ok?
    ensures var rows := ReverseEvent(l, ctx, a, 1, supply).0.events;
            && supply.eventId in rows && rows[supply.eventId].version == 1 && rows[supply.eventId].reverses == Some(a.eventId)
            && rows[supply.eventId].approval == Approved && rows[supply.eventId].archivedAt.None?
  {
    ReverseWrote(l, ctx, a, 1, supply);
  }

  lemma ReversalIsStored(db: Db, r: Request, supply: Supply)
    requires Recorded(db) && r == Reversing(1) && supply == SECOND
    ensures TakesEffect(db, Serving(r, supply)) && ReversalStored(Next(db, Serving(r, supply)))
  {
    ReversalTakesPlace(db, r, supply);
    ReversingIsAdmitted(db, r, supply, 1);
    EffectiveRequestsPerform(db, Serving(r, supply));
    NextKeepsValid(db, Serving(r, supply));
    var a := ReversalArgs(100, 22, 23, 1, EnteredInError, None);
    ReversalRow(db.ledger, r.ctx, a, supply);
    PerformChangesOnlyEvents(db.ledger, r, ReverseAction(a), supply);
    RecordsAfterReversal(db, r, supply, Next(db, Serving(r, supply)).records);
  }

  lemma RecordsAfterReversal(db: Db, r: Request, supply: Supply, after: Records)
    requires Recorded(db) && r == Reversing(1) && supply == SECOND
    requires exists outcome :: after == Claimed(db, r, supply)[supply.recordId := Final(r, supply, outcome, Completed)]
    ensures forall k {:trigger after[k]} :: k in after ==> k < 120 && after[k].id < 120 && after[k].operationId < 24 && after[k].keyDigest < 32
  {
    assert Insertable(db.records, NewRecord(r.ctx, MetadataOf(r), supply));
    FreeKeysStart(db, r, supply);
  }

  lemma ArchivingFailsOn(db: Db, r: Request, supply: Supply)
    requires ReversalStored(db) && r == Archiving(110) && supply == THIRD
    ensures Handle(db, r, supply) == (db, Err(IntegrityViolation))
  {
    ArchivingIsAdmitted(db.ledger, r);
    ArchivingStarts(db, r, supply);
    ArchivingIsRolledBack(db, r, 110, supply);
  }

  lemma ArchivingIsAdmitted(l: Ledger, r: Request)
    requires l.access == Access(map[1 := Admin], true) && r == Archiving(110)
    ensures r.command.Archive? && Admit(l, r) == Ok(ArchiveAction(110, r.command.reason)) && r.expectedVersion == 1
    ensures FinanceValid(l.access, r.ctx) && r.ctx.role == Admin
  {
  }

  lemma ArchivingStarts(db: Db, r: Request, supply: Supply)
    requires ReversalStored(db) && r == Archiving(110) && supply == THIRD
    ensures Starts(db, r, supply)
  {
    assert Insertable(db.records, NewRecord(r.ctx, MetadataOf(r), supply));
    FreeKeysStart(db, r, supply);
  }

  /** A creation is reversed, and archiving the reversal fails in the database: the request is rolled back. */
  lemma ReversalCannotBeArchived()
    ensures TakesEffect(After(EMPTY, OPENING), Serving(Reversing(1), SECOND))
    ensures var reversed := Next(After(EMPTY, OPENING), Serving(Reversing(1), SECOND));
            Handle(reversed, Archiving(110), THIRD) == (reversed, Err(IntegrityViolation))
  {
    OpeningEnds();
    CreatedIsRecorded();
    ReversalIsStored(Created(), Reversing(1), SECOND);
    ArchivingFailsOn(Next(Created(), Serving(Reversing(1), SECOND)), Archiving(110), THIRD);
  }
}
