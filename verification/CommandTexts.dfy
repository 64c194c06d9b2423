/**
 Where amounts come from: every amount a run stores is one somebody submitted, and the API shows it as
 it was written.
 */
module CommandTexts {
  import opened Common
  import opened Ledger
  import opened LedgerSafety
  import opened LedgerHistory
  import opened Commands
  import opened CommandSafety
  import opened CommandRuns
  import DecimalText
  import MoneyModel

  /** An amount and its currency code, as submitted. */
  datatype Text = Text(amount: string, code: string)

  type Texts = map<Uuid, Text>

  function TextOf(m: Manual): Text {
    Text(m.amount, m.currencyCode)
  }

  // ---- Who submitted what ------------------------------------------------------------------

  /** The rows a step submits an amount for. */
  ghost predicate Submits(db: Db, step: Step, k: Uuid, text: Text) {
    match step
    case Serving(r, supply) =>
      && TakesEffect(db, step)
      && (match r.command
          case CreateManual(m) => k == supply.eventId && text == TextOf(m)
          case Correct(_, _, _, _, replacement) => replacement.Some? && k == supply.secondEventId && text == TextOf(replacement.value)
          case _ => false)
    case Editing(ctx, id, version, u, now) =>
      && HandleEdit(db.ledger, ctx, id, version, u, now).1.Ok?
      && k == id && u.money == Some((text.amount, text.code))
    case _ => false
  }

  /** Whose text each row shows after one more step. */
  ghost function TextsAfter(texts: Texts, db: Db, step: Step): Texts {
    match step
    case Serving(r, supply) =>
      if TakesEffect(db, step) then TextsGiven(texts, r.command, supply) else texts
    case Editing(ctx, id, version, u, now) =>
      if u.money.Some? && HandleEdit(db.ledger, ctx, id, version, u, now).1.Ok?
      then texts[id := Text(u.money.value.0, u.money.value.1)] else texts
    case _ => texts
  }

  function TextsGiven(texts: Texts, c: Command, supply: Supply): Texts {
    match c
    case CreateManual(m) => texts[supply.eventId := TextOf(m)]
    case Reverse(original, _, _, _) => Passed(texts, original, supply.eventId)
    case Correct(original, _, _, _, replacement) =>
      var passed := Passed(texts, original, supply.eventId);
      if replacement.None? then passed else passed[supply.secondEventId := TextOf(replacement.value)]
    case _ => texts
  }

  /** A reversal speaks for its original. */
  function Passed(texts: Texts, original: Uuid, reversal: Uuid): Texts {
    if original in texts then texts[reversal := texts[original]] else texts
  }

  ghost function TextsOf(steps: seq<Step>): Texts {
    if steps == [] then map[]
    else
      var n := |steps| - 1;
      TextsAfter(TextsOf(steps[..n]), After(EMPTY, steps[..n]), steps[n])
  }

  /** Every text was submitted by a step that took effect. */
  ghost predicate SubmittedIn(steps: seq<Step>, text: Text) {
    exists i, k :: 0 <= i < |steps| && Submits(After(EMPTY, steps[..i]), steps[i], k, text)
  }

  // ---- Rows and their texts ----------------------------------------------------------------

  predicate Says(e: Event, text: Text) {
    MoneyModel.Submitted(text.amount, text.code) == Ok((e.amount, e.currency))
  }

  ghost predicate Explained(rows: Rows, texts: Texts) {
    forall k {:trigger rows[k]} {:trigger texts[k]} :: k in rows ==> k in texts && Says(rows[k], texts[k])
  }

  lemma WriteExplained(rows: Rows, texts: Texts, e: Event, text: Text)
    requires Explained(rows, texts) && Says(e, text)
    ensures Explained(rows[e.id := e], texts[e.id := text])
  {
  }

  lemma UpdateExplained(rows: Rows, texts: Texts, e: Event)
    requires Explained(rows, texts) && e.id in rows && e.amount == rows[e.id].amount && e.currency == rows[e.id].currency
    ensures Explained(rows[e.id := e], texts)
  {
  }

  lemma ReversalExplained(rows: Rows, texts: Texts, ctx: Context, a: ReversalArgs, supply: Supply, text: Text)
    requires WellKeyed(rows) && Explained(rows, texts) && a.eventId in rows && supply.eventId !in rows
    requires a.replacement.Some? ==> supply.secondEventId !in rows && supply.secondEventId != supply.eventId
    requires a.replacement.Some? ==> MoneyModel.Submitted(text.amount, text.code) == Ok((a.replacement.value.amount, a.replacement.value.currency))
    ensures var (reversal, replacement, flipped) := PlannedReversal(rows[a.eventId], ctx, a, supply);
            var passed := Passed(texts, a.eventId, supply.eventId);
            Explained(AfterReversal(rows, flipped, reversal, replacement), if a.replacement.None? then passed else passed[supply.secondEventId := text])
  {
    var (reversal, replacement, flipped) := PlannedReversal(rows[a.eventId], ctx, a, supply);
    assert Says(rows[a.eventId], texts[a.eventId]);
    WriteExplained(rows, texts, reversal, texts[a.eventId]);
    var passed := Passed(texts, a.eventId, supply.eventId);
    var once := rows[reversal.id := reversal];
    if a.replacement.Some? {
      WriteExplained(once, passed, replacement.value, text);
      UpdateExplained(once[replacement.value.id := replacement.value], passed[supply.secondEventId := text], flipped);
    } else {
      UpdateExplained(once, passed, flipped);
    }
  }

  // ---- One step ----------------------------------------------------------------------------

  lemma CreateExplained(l: Ledger, r: Request, d: Draft, supply: Supply, texts: Texts, text: Text)
    requires Explained(l.events, texts) && MoneyModel.Submitted(text.amount, text.code) == Ok((d.amount, d.currency))
    requires Perform(l, r, CreateAction(d), supply).1.Ok?
    ensures Explained(Perform(l, r, CreateAction(d), supply).0.events, texts[supply.eventId := text])
  {
    WriteExplained(l.events, texts, NewEvent(r.ctx, r.operationId, d, supply.now, supply.eventId), text);
  }

  lemma ReverseExplained(l: Ledger, r: Request, a: ReversalArgs, supply: Supply, texts: Texts, text: Text)
    requires Valid(l) && Explained(l.events, texts) && Perform(l, r, ReverseAction(a), supply).1.Ok?
    requires a.replacement.Some? ==> MoneyModel.Submitted(text.amount, text.code) == Ok((a.replacement.value.amount, a.replacement.value.currency))
    ensures var passed := Passed(texts, a.eventId, supply.eventId);
            Explained(Perform(l, r, ReverseAction(a), supply).0.events,
                      if a.replacement.None? then passed else passed[supply.secondEventId := text])
  {
    ReverseWrote(l, r.ctx, a, r.expectedVersion, supply);
    ReversalExplained(l.events, texts, r.ctx, a, supply, text);
  }

  lemma OthersExplained(l: Ledger, r: Request, action: Action, supply: Supply, texts: Texts)
    requires Valid(l) && Explained(l.events, texts) && Perform(l, r, action, supply).1.Ok?
    requires action.DecideAction? || action.ArchiveAction?
    ensures Explained(Perform(l, r, action, supply).0.events, texts)
  {
    if action.DecideAction? {
      DecisionWrote(l, r.ctx, action.eventId, action.decision, action.reason, action.explanation, supply.now);
      assert l.events[action.eventId].id == action.eventId;
      UpdateExplained(l.events, texts, Decided(l.events[action.eventId], action.decision, action.reason, action.explanation, r.ctx, supply.now));
    } else {
      ArchiveWrote(l, r.ctx, action.eventId, r.expectedVersion, action.reason, supply.now);
      UpdateExplained(l.events, texts, Archived(l.events[action.eventId], action.reason, r.ctx, supply.now));
    }
  }

  /** The amounts of an admitted action are the ones its request submits. */
  ghost predicate Carries(c: Command, action: Action) {
    match action
    case CreateAction(d) => c.CreateManual? && MoneyModel.Submitted(c.manual.amount, c.manual.currencyCode) == Ok((d.amount, d.currency))
    case ReverseAction(a) =>
      && (c.Reverse? || c.Correct?) && a.eventId == c.eventId
      && (a.replacement.Some? <==> c.Correct? && c.replacement.Some?)
      && (a.replacement.Some? ==>
            var m, d := c.replacement.value, a.replacement.value;
            MoneyModel.Submitted(m.amount, m.currencyCode) == Ok((d.amount, d.currency)))
    case _ => c.Decide? || c.Archive?
  }

  lemma AdmittedCarries(l: Ledger, r: Request)
    requires Admit(l, r).Ok?
    ensures Carries(r.command, Admit(l, r).value)
  {
  }

  lemma PerformExplained(l: Ledger, r: Request, action: Action, supply: Supply, texts: Texts)
    requires Valid(l) && Explained(l.events, texts) && Carries(r.command, action) && Perform(l, r, action, supply).1.Ok?
    ensures Explained(Perform(l, r, action, supply).0.events, TextsGiven(texts, r.command, supply))
  {
    match action
    case CreateAction(d) => CreateExplained(l, r, d, supply, texts, TextOf(r.command.manual));
    case ReverseAction(a) =>
      ReverseExplained(l, r, a, supply, texts, if a.replacement.Some? then TextOf(r.command.replacement.value) else Text("", ""));
    case _ => OthersExplained(l, r, action, supply, texts);
  }

  lemma EditExplained(l: Ledger, ctx: Context, id: Uuid, version: int, u: PendingUpdate, now: Instant, texts: Texts)
    requires WellKeyed(l.events) && Explained(l.events, texts) && HandleEdit(l, ctx, id, version, u, now).1.Ok?
    ensures Explained(HandleEdit(l, ctx, id, version, u, now).0.events,
                      if u.money.Some? then texts[id := Text(u.money.value.0, u.money.value.1)] else texts)
  {
    var c := PrepareUpdate(u).value;
    EditWrote(l, ctx, id, version, c, now);
    var e := Edited(l.events[id], c, ctx, now);
    if u.money.Some? {
      WriteExplained(l.events, texts, e, Text(u.money.value.0, u.money.value.1));
    } else {
      UpdateExplained(l.events, texts, e);
    }
  }

  lemma NextExplained(db: Db, step: Step, texts: Texts)
    requires DbValid(db) && Explained(db.ledger.events, texts)
    ensures Explained(Next(db, step).ledger.events, TextsAfter(texts, db, step))
  {
    match step
    case Serving(r, supply) =>
      if TakesEffect(db, step) {
        EffectiveRequestsPerform(db, step);
        AdmittedCarries(db.ledger, r);
        PerformExplained(db.ledger, r, Admit(db.ledger, r).value, supply, texts);
      } else {
        OnlyEffectiveRequestsWrite(db, step);
      }
    case Editing(ctx, id, version, u, now) =>
      if HandleEdit(db.ledger, ctx, id, version, u, now).1.Ok? {
        EditExplained(db.ledger, ctx, id, version, u, now, texts);
      } else {
        RefusedEditsWriteNothing(db.ledger, ctx, id, version, u, now);
      }
    case _ =>
  }

  lemma RefusedEditsWriteNothing(l: Ledger, ctx: Context, id: Uuid, version: int, u: PendingUpdate, now: Instant)
    requires HandleEdit(l, ctx, id, version, u, now).1.Err?
    ensures HandleEdit(l, ctx, id, version, u, now).0 == l
  {
  }

  // ---- Every run ---------------------------------------------------------------------------

  lemma {:induction false} RunsAreExplained(steps: seq<Step>)
    ensures Explained(After(EMPTY, steps).ledger.events, TextsOf(steps))
  {
    if steps != [] {
      var n := |steps| - 1;
      RunsAreExplained(steps[..n]);
      EmptyIsValid();
      RunsStayValid(EMPTY, steps[..n]);
      NextExplained(After(EMPTY, steps[..n]), steps[n], TextsOf(steps[..n]));
    }
  }

  /** The text a row shows after one more step is the one it showed, its original's, or a newly submitted one. */
  lemma TextsComeFrom(texts: Texts, db: Db, step: Step, k: Uuid)
    requires k in TextsAfter(texts, db, step)
    ensures Submits(db, step, k, TextsAfter(texts, db, step)[k]) || TextsAfter(texts, db, step)[k] in texts.Values
  {
  }

  lemma {:induction false} TextsAreSubmitted(steps: seq<Step>, k: Uuid)
    requires k in TextsOf(steps)
    ensures SubmittedIn(steps, TextsOf(steps)[k])
  {
    var n := |steps| - 1;
    var before, text := TextsOf(steps[..n]), TextsOf(steps)[k];
    TextsComeFrom(before, After(EMPTY, steps[..n]), steps[n], k);
    if text in before.Values {
      var j :| j in before && before[j] == text;
      TextsAreSubmitted(steps[..n], j);
      var i, m :| 0 <= i < n && Submits(After(EMPTY, steps[..n][..i]), steps[..n][i], m, text);
      assert steps[..n][..i] == steps[..i];
    }
  }

  /** What the API shows for a stored amount is a submitted text, padded to the scale of its currency. */
  ghost predicate ShownAs(e: Event, text: Text) {
    && e.currency == text.code && MoneyModel.Supported(text.code) && e.amount > 0
    && var currency := MoneyModel.RequireCurrency(text.code).value;
       var shown := MoneyModel.FromCalculated(MoneyModel.Column(e.amount), currency);
       && shown.Ok?
       && exists n :: DecimalText.Match(text.amount, false) == Some(n) && |DecimalText.FractionText(n)| <= currency.accountingScale
                      && MoneyModel.ToApi(shown.value) == Ok(DecimalText.Unparse(DecimalText.Padded(n, currency.accountingScale)))
  }

  lemma SaidIsShown(e: Event, text: Text)
    requires Says(e, text)
    ensures ShownAs(e, text)
  {
    MoneyModel.SubmittedIsShown(text.amount, text.code);
  }

  /**
   Every row of every reachable ledger shows an amount that a step of the run submitted and that took
   effect: the creation's for a created row, the last edit's for an edited one, the replacement's for a
   replacement, and the original's for a reversal.
   */
  lemma SubmittedTextIsShown(steps: seq<Step>, k: Uuid)
    requires k in After(EMPTY, steps).ledger.events
    ensures k in TextsOf(steps) && SubmittedIn(steps, TextsOf(steps)[k])
    ensures ShownAs(After(EMPTY, steps).ledger.events[k], TextsOf(steps)[k])
  {
    RunsAreExplained(steps);
    TextsAreSubmitted(steps, k);
    SaidIsShown(After(EMPTY, steps).ledger.events[k], TextsOf(steps)[k]);
  }

  /** The answer to a creation already shows the submitted amount, whatever valid database it meets. */
  lemma CreatedTextIsShown(db: Db, r: Request, supply: Supply)
    requires DbValid(db) && TakesEffect(db, Serving(r, supply)) && r.command.CreateManual?
    ensures Handle(db, r, supply).1.value.answer.OneEvent?
    ensures ShownAs(Handle(db, r, supply).1.value.answer.event, TextOf(r.command.manual))
  {
    EffectiveRequestsPerform(db, Serving(r, supply));
    var draft := Admit(db.ledger, r).value.draft;
    SubmissionsAreStored(db.ledger, r.ctx, r.operationId, draft, supply.now, supply.eventId);
    SaidIsShown(Handle(db, r, supply).1.value.answer.event, TextOf(r.command.manual));
  }

  // ---- Reversals and their originals -------------------------------------------------------

  ghost predicate ReversalsAgree(rows: Rows, texts: Texts) {
    forall r, o {:trigger rows[r], texts[o]} ::
      r in rows && rows[r].reverses == Some(o) && r in texts && o in texts ==> texts[r] == texts[o]
  }

  /** The texts of decided rows stay. */
  ghost predicate SettledTexts(rows: Rows, texts: Texts, after: Texts) {
    forall k {:trigger rows[k]} {:trigger after[k]} :: k in rows && rows[k].approval != Pending && k in texts ==> k in after && after[k] == texts[k]
  }

  ghost predicate NewReversalsAgree(rows: Rows, after: Rows, texts: Texts) {
    forall r, o {:trigger after[r], texts[o]} ::
      r in after && r !in rows && after[r].reverses == Some(o) && r in texts && o in texts ==> texts[r] == texts[o]
  }

  lemma AgreementIsKept(rows: Rows, after: Rows, texts: Texts, texts': Texts)
    requires AllChecked(rows) && LinksPresent(rows) && ReversalsSound(rows) && Explained(rows, texts) && ReversalsAgree(rows, texts)
    requires AllEvolve(rows, after) && SettledTexts(rows, texts, texts') && NewReversalsAgree(rows, after, texts')
    ensures ReversalsAgree(after, texts')
  {
    forall r, o | r in after && after[r].reverses == Some(o) && r in texts' && o in texts' ensures texts'[r] == texts'[o] {
      if r in rows {
        assert Checks(rows[r]) && rows[r].reverses == Some(o) && o in rows;
        assert Undoes(rows[r], rows[o]);
      }
    }
  }

  lemma EditsSettle(l: Ledger, ctx: Context, id: Uuid, version: int, u: PendingUpdate, now: Instant, texts: Texts,
                    text: Text)
    requires WellKeyed(l.events) && HandleEdit(l, ctx, id, version, u, now).1.Ok?
    ensures SettledTexts(l.events, texts, texts[id := text])
    ensures HandleEdit(l, ctx, id, version, u, now).0.events.Keys == l.events.Keys
  {
    EditWrote(l, ctx, id, version, PrepareUpdate(u).value, now);
  }

  lemma ReversalSettles(l: Ledger, r: Request, a: ReversalArgs, supply: Supply, texts: Texts, text: Text)
    requires Valid(l) && Explained(l.events, texts) && Perform(l, r, ReverseAction(a), supply).1.Ok?
    ensures var passed := Passed(texts, a.eventId, supply.eventId);
            var texts' := if a.replacement.None? then passed else passed[supply.secondEventId := text];
            && SettledTexts(l.events, texts, texts')
            && NewReversalsAgree(l.events, Perform(l, r, ReverseAction(a), supply).0.events, texts')
  {
    ReverseWrote(l, r.ctx, a, r.expectedVersion, supply);
    var (reversal, replacement, flipped) := PlannedReversal(l.events[a.eventId], r.ctx, a, supply);
    assert a.eventId in texts;
    PlannedRowsSettle(l.events, flipped, reversal, replacement, texts, text);
  }

  lemma PlannedRowsSettle(rows: Rows, flipped: Event, reversal: Event, replacement: Option<Event>, texts: Texts,
                          text: Text)
    requires flipped.id in rows && flipped.id in texts && reversal.id !in rows && reversal.reverses == Some(flipped.id)
    requires replacement.Some? ==> replacement.value.id !in rows && replacement.value.id != reversal.id && replacement.value.reverses.None?
    ensures var passed := Passed(texts, flipped.id, reversal.id);
            var texts' := if replacement.None? then passed else passed[replacement.value.id := text];
            && SettledTexts(rows, texts, texts')
            && NewReversalsAgree(rows, AfterReversal(rows, flipped, reversal, replacement), texts')
  {
  }

  lemma CreationSettles(l: Ledger, r: Request, d: Draft, supply: Supply, texts: Texts, text: Text)
    requires Perform(l, r, CreateAction(d), supply).1.Ok?
    ensures SettledTexts(l.events, texts, texts[supply.eventId := text])
    ensures NewReversalsAgree(l.events, Perform(l, r, CreateAction(d), supply).0.events, texts[supply.eventId := text])
  {
  }

  lemma PerformSettles(l: Ledger, r: Request, action: Action, supply: Supply, texts: Texts)
    requires Valid(l) && Explained(l.events, texts) && Carries(r.command, action) && Perform(l, r, action, supply).1.Ok?
    ensures SettledTexts(l.events, texts, TextsGiven(texts, r.command, supply))
    ensures NewReversalsAgree(l.events, Perform(l, r, action, supply).0.events, TextsGiven(texts, r.command, supply))
  {
    match action
    case CreateAction(d) => CreationSettles(l, r, d, supply, texts, TextOf(r.command.manual));
    case ReverseAction(a) =>
      ReversalSettles(l, r, a, supply, texts, if a.replacement.Some? then TextOf(r.command.replacement.value) else Text("", ""));
    case _ => OthersAddNothing(l, r, action, supply);
  }

  lemma OthersAddNothing(l: Ledger, r: Request, action: Action, supply: Supply)
    requires Valid(l) && Perform(l, r, action, supply).1.Ok? && (action.DecideAction? || action.ArchiveAction?)
    ensures Perform(l, r, action, supply).0.events.Keys == l.events.Keys
  {
    if action.DecideAction? {
      DecisionWrote(l, r.ctx, action.eventId, action.decision, action.reason, action.explanation, supply.now);
      assert l.events[action.eventId].id == action.eventId;
    } else {
      ArchiveWrote(l, r.ctx, action.eventId, r.expectedVersion, action.reason, supply.now);
    }
  }

  lemma NextSettles(db: Db, step: Step, texts: Texts)
    requires DbValid(db) && Explained(db.ledger.events, texts)
    ensures SettledTexts(db.ledger.events, texts, TextsAfter(texts, db, step))
    ensures NewReversalsAgree(db.ledger.events, Next(db, step).ledger.events, TextsAfter(texts, db, step))
  {
    match step
    case Serving(r, supply) =>
      if TakesEffect(db, step) {
        EffectiveRequestsPerform(db, step);
        AdmittedCarries(db.ledger, r);
        PerformSettles(db.ledger, r, Admit(db.ledger, r).value, supply, texts);
      } else {
        OnlyEffectiveRequestsWrite(db, step);
      }
    case Editing(ctx, id, version, u, now) =>
      if HandleEdit(db.ledger, ctx, id, version, u, now).1.Ok? {
        EditsSettle(db.ledger, ctx, id, version, u, now, texts, if u.money.Some? then Text(u.money.value.0, u.money.value.1) else Text("", ""));
      } else {
        RefusedEditsWriteNothing(db.ledger, ctx, id, version, u, now);
      }
    case _ =>
  }

  /** In every reachable ledger a reversal shows the very text its original shows. */
  lemma {:induction false} ReversalsShowTheirOriginals(steps: seq<Step>)
    ensures ReversalsAgree(After(EMPTY, steps).ledger.events, TextsOf(steps))
  {
    if steps != [] {
      var n := |steps| - 1;
      var db := After(EMPTY, steps[..n]);
      ReversalsShowTheirOriginals(steps[..n]);
      RunsAreExplained(steps[..n]);
      EmptyIsValid();
      RunsStayValid(EMPTY, steps[..n]);
      NextSettles(db, steps[n], TextsOf(steps[..n]));
      NextIsLater(db, steps[n]);
      AgreementIsKept(db.ledger.events, Next(db, steps[n]).ledger.events, TextsOf(steps[..n]), TextsOf(steps));
    }
  }
}
