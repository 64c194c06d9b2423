/**
 What the ledger adds up to.

 Reversals are never netted by deleting rows: a reversed event and its reversal both stay, in opposite
 directions. So for each currency the sum over everything ever approved is the sum over the effective
 events that are not themselves reversals, in every valid ledger.
 */
module LedgerAccounts {
  import opened Common
  import opened Ledger
  import opened LedgerSafety

  // ---- Sums over the rows ------------------------------------------------------------------

  /** The sum of a weight over all rows, taken in any order. */
  ghost function Sum(rows: Rows, weight: Event -> int): int
    decreases |rows|
  {
    if rows == map[] then 0
    else
      var k :| k in rows;
      SmallerWithout(rows, k);
      weight(rows[k]) + Sum(rows - {k}, weight)
  }

  lemma SmallerWithout(rows: Rows, k: Uuid)
    requires k in rows
    ensures |rows - {k}| < |rows|
  {
  }

  /** Any row can be taken out first. */
  lemma {:induction false} SumSplits(rows: Rows, weight: Event -> int, k: Uuid)
    requires k in rows
    ensures Sum(rows, weight) == weight(rows[k]) + Sum(rows - {k}, weight)
    decreases |rows|
  {
    var first :| first in rows && Sum(rows, weight) == weight(rows[first]) + Sum(rows - {first}, weight);
    if first != k {
      SmallerWithout(rows, first);
      SmallerWithout(rows, k);
      SumSplits(rows - {first}, weight, k);
      SumSplits(rows - {k}, weight, first);
      assert rows - {first} - {k} == rows - {k} - {first};
    }
  }

  lemma SumAfterInsert(rows: Rows, weight: Event -> int, k: Uuid, e: Event)
    requires k !in rows
    ensures Sum(rows[k := e], weight) == Sum(rows, weight) + weight(e)
  {
    SumSplits(rows[k := e], weight, k);
    assert rows[k := e] - {k} == rows;
  }

  lemma SumAfterUpdate(rows: Rows, weight: Event -> int, k: Uuid, e: Event)
    requires k in rows
    ensures Sum(rows[k := e], weight) == Sum(rows, weight) - weight(rows[k]) + weight(e)
  {
    SumSplits(rows[k := e], weight, k);
    SumSplits(rows, weight, k);
    assert rows[k := e] - {k} == rows - {k};
  }

  // ---- The two totals ----------------------------------------------------------------------

  function Signed(e: Event): int {
    if e.direction == Inflow then e.amount else -e.amount
  }

  function ApprovedWeight(currency: string): Event -> int {
    (e: Event) => if e.approval == Approved && e.currency == currency then Signed(e) else 0
  }

  function EffectiveWeight(currency: string): Event -> int {
    (e: Event) => if e.posting == Effective && e.reverses.None? && e.currency == currency then Signed(e) else 0
  }

  /** The signed sum of every approved event in a currency, reversed events and reversals included. */
  ghost function Books(rows: Rows, currency: string): int {
    Sum(rows, ApprovedWeight(currency))
  }

  /** The signed sum of the effective events in a currency that are not reversals. */
  ghost function Balance(rows: Rows, currency: string): int {
    Sum(rows, EffectiveWeight(currency))
  }

  // ---- The pairing -------------------------------------------------------------------------

  /** Reversed events and their reversals are both in, or both out. */
  ghost predicate PairsTogether(rows: Rows) {
    && (forall k {:trigger rows[k]} :: k in rows ==> (rows[k].posting != NotEffective <==> rows[k].approval == Approved))
    && (forall k {:trigger rows[k]} :: k in rows && rows[k].reverses.Some? ==> rows[k].reverses.value in rows)
    && ReversalsSound(rows) && ReversalsUnique(rows) && ReversedHasReversal(rows)
  }

  lemma WeightsAgree(e: Event, currency: string)
    requires e.posting != Reversed && e.reverses.None? && (e.posting != NotEffective <==> e.approval == Approved)
    ensures ApprovedWeight(currency)(e) == EffectiveWeight(currency)(e)
  {
  }

  /** A pair adds nothing to either total. */
  lemma PairCancels(r: Event, t: Event, currency: string)
    requires r.reverses.Some? && r.approval == Approved && Undoes(r, t)
    ensures ApprovedWeight(currency)(r) + ApprovedWeight(currency)(t) == 0
    ensures EffectiveWeight(currency)(r) == 0 && EffectiveWeight(currency)(t) == 0
  {
  }

  /** Taking out a reversed event together with its reversal leaves the remaining pairs together. */
  lemma PairsWithout(rows: Rows, t: Uuid, r: Uuid)
    requires PairsTogether(rows) && t in rows && r in rows && rows[r].reverses == Some(t)
    ensures PairsTogether(rows - {t, r})
  {
    var rest := rows - {t, r};
    assert Undoes(rows[r], rows[t]);
    assert forall k {:trigger rows[k]} :: k in rest ==> rows[k].reverses != Some(t) && rows[k].reverses != Some(r);
    forall k | k in rest && rest[k].posting == Reversed ensures HasReversal(rest, k) {
      assert HasReversal(rows, k);
      var q :| q in rows && rows[q].reverses == Some(k);
      assert q in rest && rest[q].reverses == Some(k);
    }
  }

  /** Taking out an event that is neither reversed nor a reversal leaves every pair together. */
  lemma PairsWithoutPlain(rows: Rows, k: Uuid)
    requires PairsTogether(rows) && k in rows && rows[k].posting != Reversed && rows[k].reverses.None?
    ensures PairsTogether(rows - {k})
  {
    var rest := rows - {k};
    assert forall j {:trigger rows[j]} :: j in rest ==> rows[j].reverses != Some(k);
    forall j | j in rest && rest[j].posting == Reversed ensures HasReversal(rest, j) {
      assert HasReversal(rows, j);
      var q :| q in rows && rows[q].reverses == Some(j);
      assert q in rest && rest[q].reverses == Some(j);
    }
  }

  lemma NoneReversed(rows: Rows, k: Uuid)
    requires ReversedHasReversal(rows) && k in rows && forall r {:trigger rows[r]} :: r in rows ==> rows[r].reverses.None?
    ensures rows[k].posting != Reversed
  {
    assert !HasReversal(rows, k);
  }

  lemma PlainAgrees(rows: Rows, k: Uuid, currency: string)
    requires PairsTogether(rows) && k in rows && rows[k].posting != Reversed && rows[k].reverses.None?
    requires Books(rows - {k}, currency) == Balance(rows - {k}, currency)
    ensures Books(rows, currency) == Balance(rows, currency)
  {
    WeightsAgree(rows[k], currency);
    SumSplits(rows, ApprovedWeight(currency), k);
    SumSplits(rows, EffectiveWeight(currency), k);
  }

  lemma PairAgrees(rows: Rows, t: Uuid, r: Uuid, currency: string)
    requires PairsTogether(rows) && t in rows && r in rows && rows[r].reverses == Some(t)
    requires Books(rows - {t, r}, currency) == Balance(rows - {t, r}, currency)
    ensures Books(rows, currency) == Balance(rows, currency)
  {
    PairCancels(rows[r], rows[t], currency);
    SumWithoutTwo(rows, ApprovedWeight(currency), t, r);
    SumWithoutTwo(rows, EffectiveWeight(currency), t, r);
  }

  /** With all pairs together, the two totals are equal: the pairs cancel and the rest weigh the same. */
  lemma {:induction false} TotalsAgree(rows: Rows, currency: string)
    requires PairsTogether(rows)
    ensures Books(rows, currency) == Balance(rows, currency)
    decreases |rows|
  {
    if k :| k in rows && rows[k].reverses.Some? {
      var t := rows[k].reverses.value;
      PairsWithout(rows, t, k);
      SmallerWithoutTwo(rows, t, k);
      TotalsAgree(rows - {t, k}, currency);
      PairAgrees(rows, t, k, currency);
    } else if k :| k in rows {
      NoneReversed(rows, k);
      PairsWithoutPlain(rows, k);
      SmallerWithout(rows, k);
      TotalsAgree(rows - {k}, currency);
      PlainAgrees(rows, k, currency);
    } else {
      assert rows == map[];
    }
  }

  lemma SmallerWithoutTwo(rows: Rows, j: Uuid, k: Uuid)
    requires j in rows && k in rows && j != k
    ensures |rows - {j, k}| < |rows|
  {
  }

  lemma SumWithoutTwo(rows: Rows, weight: Event -> int, j: Uuid, k: Uuid)
    requires j in rows && k in rows && j != k
    ensures Sum(rows, weight) == weight(rows[j]) + weight(rows[k]) + Sum(rows - {j, k}, weight)
  {
    SumSplits(rows, weight, j);
    SumSplits(rows - {j}, weight, k);
    assert rows - {j} - {k} == rows - {j, k};
  }

  /** Conservation: in every valid ledger, everything approved adds up to what is effective now. */
  lemma BooksBalance(l: Ledger, currency: string)
    requires Valid(l)
    ensures Books(l.events, currency) == Balance(l.events, currency)
  {
    forall k | k in l.events ensures l.events[k].posting != NotEffective <==> l.events[k].approval == Approved {
      assert Checks(l.events[k]);
    }
    TotalsAgree(l.events, currency);
  }

  // ---- What each command adds --------------------------------------------------------------

  function MoneyOf(e: Event, currency: string): int {
    if e.currency == currency then Signed(e) else 0
  }

  /** An administrator's new event counts at once; a contributor's counts nothing until it is approved. */
  lemma CreateAdds(l: Ledger, ctx: Context, operationId: Uuid, d: Draft, now: Instant, id: Uuid, currency: string)
    ensures var (after, r) := CreateEvent(l, ctx, operationId, d, now, id);
            Balance(after.events, currency)
            == Balance(l.events, currency) + if r.Ok? && ctx.role == Admin then MoneyOf(r.value, currency) else 0
  {
    var e := NewEvent(ctx, operationId, d, now, id);
    if InsertAccepted(l.events, l.categories, e) {
      SumAfterInsert(l.events, EffectiveWeight(currency), id, e);
    }
  }

  lemma EditAddsNothing(l: Ledger, ctx: Context, eventId: Uuid, expectedVersion: int, c: Changes, now: Instant,
                        currency: string)
    requires WellKeyed(l.events)
    ensures Balance(UpdatePendingEvent(l, ctx, eventId, expectedVersion, c, now).0.events, currency) == Balance(l.events, currency)
  {
    if UpdatePendingEvent(l, ctx, eventId, expectedVersion, c, now).1.Ok? {
      EditWrote(l, ctx, eventId, expectedVersion, c, now);
      assert l.events[eventId].id == eventId;
      SumAfterUpdate(l.events, EffectiveWeight(currency), eventId, Edited(l.events[eventId], c, ctx, now));
    }
  }

  /** Approving an event adds its amount, once; rejecting it adds nothing. */
  lemma DecisionAdds(l: Ledger, ctx: Context, eventId: Uuid, decision: Decision, reason: Reason,
                     explanation: Option<string>, now: Instant, currency: string)
    requires WellKeyed(l.events) && AllChecked(l.events)
    ensures var (after, r) := DecidePendingEvent(l, ctx, eventId, decision, reason, explanation, now);
            Balance(after.events, currency)
            == Balance(l.events, currency) + if r.Ok? && decision == Approve then MoneyOf(r.value, currency) else 0
  {
    if DecidePendingEvent(l, ctx, eventId, decision, reason, explanation, now).1.Ok? {
      DecisionWrote(l, ctx, eventId, decision, reason, explanation, now);
      assert l.events[eventId].id == eventId && Checks(l.events[eventId]);
      SumAfterUpdate(l.events, EffectiveWeight(currency), eventId, Decided(l.events[eventId], decision, reason, explanation, ctx, now));
    }
  }

  lemma ArchiveAddsNothing(l: Ledger, ctx: Context, eventId: Uuid, expectedVersion: int, reason: Reason, now: Instant,
                           currency: string)
    requires WellKeyed(l.events) && LinksPresent(l.events) && ReversalsSound(l.events)
    ensures Balance(ArchiveEvent(l, ctx, eventId, expectedVersion, reason, now).0.events, currency) == Balance(l.events, currency)
  {
    if ArchiveEvent(l, ctx, eventId, expectedVersion, reason, now).1.Ok? {
      ArchiveWrote(l, ctx, eventId, expectedVersion, reason, now);
      SumAfterUpdate(l.events, EffectiveWeight(currency), eventId, Archived(l.events[eventId], reason, ctx, now));
    }
  }

  lemma FlushesAdd(rows: Rows, flipped: Event, reversal: Event, replacement: Option<Event>, currency: string)
    requires flipped.id in rows && reversal.id !in rows
    requires replacement.Some? ==> replacement.value.id !in rows && replacement.value.id != reversal.id
    ensures var w := EffectiveWeight(currency);
            Sum(AfterReversal(rows, flipped, reversal, replacement), w)
            == Sum(rows, w) - w(rows[flipped.id]) + w(flipped) + w(reversal) + if replacement.Some? then w(replacement.value) else 0
  {
    var w := EffectiveWeight(currency);
    var one := rows[reversal.id := reversal];
    SumAfterInsert(rows, w, reversal.id, reversal);
    if replacement.Some? {
      SumAfterInsert(one, w, replacement.value.id, replacement.value);
    }
    SumAfterUpdate(AfterFirstFlush(rows, reversal, replacement), w, flipped.id, flipped);
  }

  lemma ReversalWeighs(original: Event, ctx: Context, a: ReversalArgs, supply: Supply, currency: string)
    requires Reversible(original)
    ensures var (reversal, replacement, flipped) := PlannedReversal(original, ctx, a, supply);
            var w := EffectiveWeight(currency);
            && w(original) == MoneyOf(original, currency) && w(flipped) == 0 && w(reversal) == 0
            && (replacement.Some? ==> w(replacement.value) == MoneyOf(replacement.value, currency))
  {
  }

  lemma ReversalAdds(rows: Rows, ctx: Context, a: ReversalArgs, supply: Supply, currency: string)
    requires WellKeyed(rows) && a.eventId in rows && Reversible(rows[a.eventId]) && supply.eventId !in rows
    requires a.replacement.Some? ==> supply.secondEventId !in rows && supply.secondEventId != supply.eventId
    ensures var (reversal, replacement, flipped) := PlannedReversal(rows[a.eventId], ctx, a, supply);
            Balance(AfterReversal(rows, flipped, reversal, replacement), currency)
            == Balance(rows, currency)
               + (if replacement.Some? then MoneyOf(replacement.value, currency) else 0)
               - MoneyOf(rows[a.eventId], currency)
  {
    var (reversal, replacement, flipped) := PlannedReversal(rows[a.eventId], ctx, a, supply);
    assert rows[a.eventId].id == a.eventId;
    FlushesAdd(rows, flipped, reversal, replacement, currency);
    ReversalWeighs(rows[a.eventId], ctx, a, supply, currency);
  }

  /** A reversal takes exactly the original's amount away again, and adds its replacement's. */
  lemma ReverseAdds(l: Ledger, ctx: Context, a: ReversalArgs, expectedVersion: int, supply: Supply, currency: string)
    requires RowsValid(l.events, l.categories)
    ensures var (after, r) := ReverseEvent(l, ctx, a, expectedVersion, supply);
            Balance(after.events, currency)
            == Balance(l.events, currency)
               + if r.Err? then 0
                 else (if r.value.replacement.Some? then MoneyOf(r.value.replacement.value, currency) else 0)
                      - MoneyOf(l.events[a.eventId], currency)
  {
    if ReverseEvent(l, ctx, a, expectedVersion, supply).1.Ok? {
      ReverseWrote(l, ctx, a, expectedVersion, supply);
      ReversalAdds(l.events, ctx, a, supply, currency);
    }
  }
}
