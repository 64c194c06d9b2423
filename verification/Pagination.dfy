/**
 Keyset pagination: the order of the list, the predicate a position adds, and the pages that following
 positions gives, on a ledger that stands still and on one that changes between pages.
 */
module Pagination {
  import opened Common
  import opened Ledger
  import opened LedgerSafety
  import opened LedgerHistory
  import FinanceRepository

  // ---- The order of the list ---------------------------------------------------------------

  /** Where an event stands in the list; also what a cursor carries. */
  datatype Position = Position(occurredOn: int, createdAt: Instant, id: Uuid)

  function PositionOf(e: Event): Position {
    Position(e.occurredOn, e.createdAt, e.id)
  }

  /** Newest first; among equals the smallest id first. */
  predicate Before(a: Position, b: Position) {
    || a.occurredOn > b.occurredOn
    || (a.occurredOn == b.occurredOn && a.createdAt > b.createdAt)
    || (a.occurredOn == b.occurredOn && a.createdAt == b.createdAt && a.id < b.id)
  }

  predicate Precedes(s: set<Position>, first: Position) {
    first in s && forall p {:trigger Before(first, p)} :: p in s && p != first ==> Before(first, p)
  }

  lemma {:induction false} SomeoneIsFirst(s: set<Position>) returns (first: Position)
    requires s != {}
    ensures Precedes(s, first)
  {
    var p :| p in s;
    if s == {p} {
      first := p;
    } else {
      assert s - {p} != {} by {
        assert exists x :: x in s && x != p;
      }
      var rest := SomeoneIsFirst(s - {p});
      first := if Before(p, rest) then p else rest;
      forall x | x in s && x != first ensures Before(first, x) {
        if x != p && first == p && x != rest {
          BeforeIsTransitive(p, rest, x);
        }
      }
    }
  }

  lemma BeforeIsTransitive(a: Position, b: Position, c: Position)
    requires Before(a, b) && Before(b, c)
    ensures Before(a, c)
  {
  }

  ghost function First(s: set<Position>): (first: Position)
    requires s != {}
    ensures Precedes(s, first)
  {
    assert exists first :: Precedes(s, first) by {
      var first := SomeoneIsFirst(s);
    }
    var first :| Precedes(s, first);
    first
  }

  /** The sorted list of a set of positions. */
  ghost function Sorted(s: set<Position>): seq<Position>
    decreases |s|
  {
    if s == {} then [] else [First(s)] + Sorted(s - {First(s)})
  }

  ghost predicate Ascending(list: seq<Position>) {
    forall i, j {:trigger list[i], list[j]} :: 0 <= i < j < |list| ==> Before(list[i], list[j])
  }

  ghost predicate Lists(list: seq<Position>, s: set<Position>) {
    forall p {:trigger p in list} {:trigger p in s} :: p in list <==> p in s
  }

  lemma {:induction false} SortedLists(s: set<Position>)
    ensures Lists(Sorted(s), s) && Ascending(Sorted(s))
    decreases |s|
  {
    if s != {} {
      var first, rest := First(s), Sorted(s - {First(s)});
      SortedLists(s - {first});
      AscendingBehind(first, rest);
      assert forall p :: p in Sorted(s) <==> p == first || p in rest;
    }
  }

  lemma AscendingBehind(first: Position, rest: seq<Position>)
    requires Ascending(rest) && forall p {:trigger p in rest} :: p in rest ==> Before(first, p)
    ensures Ascending([first] + rest)
  {
    var list := [first] + rest;
    forall i, j | 0 <= i < j < |list| ensures Before(list[i], list[j]) {
      assert list[j] == rest[j - 1] && rest[j - 1] in rest;
      assert i > 0 ==> list[i] == rest[i - 1];
    }
  }

  lemma HeadIsFirst(list: seq<Position>, p: Position)
    requires Ascending(list) && p in list
    ensures list != [] && (p == list[0] || Before(list[0], p))
  {
  }

  /** There is only one way to list a set in order. */
  lemma {:induction false} OrderIsUnique(a: seq<Position>, b: seq<Position>)
    requires Ascending(a) && Ascending(b) && forall p :: p in a <==> p in b
    ensures a == b
  {
    assert |a| > 0 ==> a[0] in b;
    assert |b| > 0 ==> b[0] in a;
    if |a| > 0 && |b| > 0 {
      HeadIsFirst(a, b[0]);
      HeadIsFirst(b, a[0]);
      forall p ensures p in a[1..] <==> p in b[1..] {
        InTail(a, p);
        InTail(b, p);
      }
      OrderIsUnique(a[1..], b[1..]);
      assert a == [a[0]] + a[1..] && b == [b[0]] + b[1..];
    }
  }

  lemma InTail(list: seq<Position>, p: Position)
    requires Ascending(list) && list != []
    ensures p in list[1..] <==> p in list && p != list[0]
  {
  }

  lemma SortedIsTheOnlyOrder(list: seq<Position>, s: set<Position>)
    requires Ascending(list) && Lists(list, s)
    ensures list == Sorted(s)
  {
    SortedLists(s);
    OrderIsUnique(list, Sorted(s));
  }

  // ---- The query ---------------------------------------------------------------------------

  datatype ArchiveScope = ActiveOnly | ArchivedOnly | Everything

  datatype Query = Query(
    approvals: seq<Approval>,
    occurredFrom: Option<int>,
    occurredTo: Option<int>,
    categoryIds: seq<Uuid>,
    kinds: seq<EventKind>,
    directions: seq<Direction>,
    activities: seq<Activity>,
    paymentMethods: seq<PaymentMethod>,
    currencies: seq<string>,
    archiveScope: ArchiveScope,
    pageSize: int,
    after: Option<Position>)

  /** What constructing a query and the role check let through. */
  predicate QueryAccepted(ctx: Context, q: Query) {
    && 1 <= q.pageSize <= 100
    && (q.occurredFrom.Some? && q.occurredTo.Some? ==> q.occurredFrom.value < q.occurredTo.value)
    && (ctx.role == Advisor ==> forall i :: 0 <= i < |q.approvals| ==> q.approvals[i] == Approved)
  }

  predicate VisibleTo(ctx: Context, e: Event) {
    match ctx.role
    case Contributor => e.createdBy == ctx.membership
    case Advisor => e.approval == Approved
    case Admin => true
  }

  predicate InScope(scope: ArchiveScope, e: Event) {
    match scope
    case ActiveOnly => e.archivedAt.None?
    case ArchivedOnly => e.archivedAt.Some?
    case Everything => true
  }

  predicate Dated(q: Query, e: Event) {
    && (q.occurredFrom.Some? ==> e.occurredOn >= q.occurredFrom.value)
    && (q.occurredTo.Some? ==> e.occurredOn < q.occurredTo.value)
  }

  predicate Classified(q: Query, e: Event) {
    && (q.categoryIds != [] ==> e.categoryId in q.categoryIds)
    && (q.kinds != [] ==> e.kind in q.kinds)
    && (q.directions != [] ==> e.direction in q.directions)
  }

  predicate Labelled(q: Query, e: Event) {
    && (q.activities != [] ==> e.activity in q.activities)
    && (q.paymentMethods != [] ==> e.paymentMethod in q.paymentMethods)
    && (q.currencies != [] ==> e.currency in q.currencies)
  }

  predicate Matches(q: Query, e: Event) {
    InScope(q.archiveScope, e) && (q.approvals != [] ==> e.approval in q.approvals) && Dated(q, e) && Classified(q, e) && Labelled(q, e)
  }

  predicate Follows(after: Option<Position>, p: Position) {
    after.Some? ==> Before(after.value, p)
  }

  /** The rows a query is about, wherever it starts. */
  predicate Listed(ctx: Context, q: Query, e: Event) {
    VisibleTo(ctx, e) && Matches(q, e)
  }

  ghost function Selected(rows: Rows, ctx: Context, q: Query): set<Position> {
    set k | k in rows && Listed(ctx, q, rows[k]) && Follows(q.after, PositionOf(rows[k])) :: PositionOf(rows[k])
  }

  datatype Page = Page(records: seq<Event>, next: Option<Position>)

  ghost function PagePositions(rows: Rows, ctx: Context, q: Query): seq<Position>
    requires q.pageSize >= 1
  {
    var list := Sorted(Selected(rows, ctx, q));
    if |list| > q.pageSize then list[..q.pageSize] else list
  }

  ghost function NextPosition(rows: Rows, ctx: Context, q: Query): Option<Position>
    requires q.pageSize >= 1
  {
    var list := Sorted(Selected(rows, ctx, q));
    if |list| > q.pageSize then Some(list[q.pageSize - 1]) else None
  }

  // ---- A ledger that stands still ----------------------------------------------------------

  function From(q: Query, next: Option<Position>): Query {
    q.(after := next)
  }

  /** Selecting from a later start selects what comes after it. */
  lemma SelectedAfter(rows: Rows, ctx: Context, q: Query, start: Position, p: Position)
    requires start in Selected(rows, ctx, q)
    ensures p in Selected(rows, ctx, From(q, Some(start))) <==> p in Selected(rows, ctx, q) && Before(start, p)
  {
  }

  /** Starting after the last position of a page selects exactly what the page left over. */
  lemma NextSelectsTheRest(rows: Rows, ctx: Context, q: Query)
    requires q.pageSize >= 1 && NextPosition(rows, ctx, q).Some?
    ensures var list := Sorted(Selected(rows, ctx, q));
            Sorted(Selected(rows, ctx, From(q, NextPosition(rows, ctx, q)))) == list[q.pageSize..]
  {
    var s := Selected(rows, ctx, q);
    var list, n := Sorted(s), q.pageSize;
    SortedLists(s);
    var rest := Selected(rows, ctx, From(q, NextPosition(rows, ctx, q)));
    forall p ensures p in list[n..] <==> p in rest {
      SplitAt(list, n, p);
      assert list[n - 1] in list;
      SelectedAfter(rows, ctx, q, list[n - 1], p);
    }
    SortedIsTheOnlyOrder(list[n..], rest);
  }

  /** In an ascending list, what comes after a place is what is listed and comes after its element. */
  lemma SplitAt(list: seq<Position>, n: int, p: Position)
    requires Ascending(list) && 1 <= n < |list|
    ensures p in list[n..] <==> p in list && Before(list[n - 1], p)
  {
  }

  lemma FollowsOnlyForward(rows: Rows, ctx: Context, q: Query)
    requires q.pageSize >= 1 && NextPosition(rows, ctx, q).Some?
    ensures NextPosition(rows, ctx, q).value in Selected(rows, ctx, q)
    ensures |Sorted(Selected(rows, ctx, From(q, NextPosition(rows, ctx, q))))| < |Sorted(Selected(rows, ctx, q))|
  {
    var list := Sorted(Selected(rows, ctx, q));
    SortedLists(Selected(rows, ctx, q));
    assert list[q.pageSize - 1] in list;
    NextSelectsTheRest(rows, ctx, q);
  }

  /** All the positions that following `next` to its end returns. */
  ghost function Walk(rows: Rows, ctx: Context, q: Query): seq<Position>
    requires q.pageSize >= 1
    decreases |Sorted(Selected(rows, ctx, q))|
  {
    var next := NextPosition(rows, ctx, q);
    if next.None? then PagePositions(rows, ctx, q)
    else
      FollowsOnlyForward(rows, ctx, q);
      PagePositions(rows, ctx, q) + Walk(rows, ctx, From(q, next))
  }

  /** The pages tile the set: following the positions to the end gives the whole selection, in order, each once. */
  lemma {:induction false} PagesTile(rows: Rows, ctx: Context, q: Query)
    requires q.pageSize >= 1
    ensures Walk(rows, ctx, q) == Sorted(Selected(rows, ctx, q))
    decreases |Sorted(Selected(rows, ctx, q))|
  {
    var list, next := Sorted(Selected(rows, ctx, q)), NextPosition(rows, ctx, q);
    if next.Some? {
      FollowsOnlyForward(rows, ctx, q);
      NextSelectsTheRest(rows, ctx, q);
      PagesTile(rows, ctx, From(q, next));
      assert list == list[..q.pageSize] + list[q.pageSize..];
    }
  }

  /** Said of events: a walk from the start lists exactly the visible matching events, each of them once. */
  lemma WalkListsEveryEventOnce(rows: Rows, ctx: Context, q: Query)
    requires WellKeyed(rows) && q.pageSize >= 1 && q.after.None?
    ensures var walk := Walk(rows, ctx, q);
            && Ascending(walk)
            && (forall k :: k in rows && Listed(ctx, q, rows[k]) ==> PositionOf(rows[k]) in walk)
            && (forall p :: p in walk ==> p.id in rows && Listed(ctx, q, rows[p.id]) && p == PositionOf(rows[p.id]))
            && (forall i, j :: 0 <= i < j < |walk| ==> walk[i] != walk[j])
  {
    PagesTile(rows, ctx, q);
    SortedLists(Selected(rows, ctx, q));
    var walk := Walk(rows, ctx, q);
    forall k | k in rows && Listed(ctx, q, rows[k]) ensures PositionOf(rows[k]) in walk {
      assert PositionOf(rows[k]) in Selected(rows, ctx, q);
    }
    forall i, j | 0 <= i < j < |walk| ensures walk[i] != walk[j] {
      assert Before(walk[i], walk[j]);
    }
  }

  // ---- What is shown, in fields ------------------------------------------------------------

  /** A Contributor reads the events of its own, an Advisor the approved ones, an Admin all. */
  predicate MayRead(ctx: Context, e: Event) {
    && (ctx.role == Contributor ==> e.createdBy == ctx.membership)
    && (ctx.role == Advisor ==> e.approval == Approved)
  }

  /** Every filter the query sets lets the event through. */
  predicate Asked(q: Query, e: Event) {
    && (q.archiveScope == ActiveOnly ==> e.archivedAt == None) && (q.archiveScope == ArchivedOnly ==> e.archivedAt != None)
    && (q.approvals == [] || e.approval in q.approvals)
    && (q.occurredFrom == None || q.occurredFrom.value <= e.occurredOn) && (q.occurredTo == None || e.occurredOn < q.occurredTo.value)
    && (q.categoryIds == [] || e.categoryId in q.categoryIds) && (q.kinds == [] || e.kind in q.kinds)
    && (q.directions == [] || e.direction in q.directions) && (q.activities == [] || e.activity in q.activities)
    && (q.paymentMethods == [] || e.paymentMethod in q.paymentMethods) && (q.currencies == [] || e.currency in q.currencies)
  }

  /** Newer first: by the day, then by the time of creation; of what is equally new, the smaller id first. */
  predicate NewerFirst(a: Position, b: Position) {
    if a.occurredOn != b.occurredOn then b.occurredOn < a.occurredOn
    else if a.createdAt != b.createdAt then b.createdAt < a.createdAt
    else a.id < b.id
  }

  /** A walk shows a stored event exactly when the actor may read it, the query asks for it and it comes after the start. */
  lemma WalkShowsExactly(rows: Rows, ctx: Context, q: Query, k: Uuid)
    requires WellKeyed(rows) && q.pageSize >= 1
    ensures (exists p :: p in Walk(rows, ctx, q) && p.id == k) <==>
            && k in rows && MayRead(ctx, rows[k]) && Asked(q, rows[k])
            && (q.after == None || NewerFirst(q.after.value, Position(rows[k].occurredOn, rows[k].createdAt, k)))
  {
    PagesTile(rows, ctx, q);
    SortedLists(Selected(rows, ctx, q));
    if k in rows && Listed(ctx, q, rows[k]) && Follows(q.after, PositionOf(rows[k])) {
      assert PositionOf(rows[k]) in Selected(rows, ctx, q);
      assert PositionOf(rows[k]) in Walk(rows, ctx, q) && PositionOf(rows[k]).id == k;
    }
    if p :| p in Walk(rows, ctx, q) && p.id == k {
      assert p in Selected(rows, ctx, q);
    }
  }

  /** What a walk shows is newest first, and it shows the day and time of the rows. */
  lemma WalkIsNewestFirst(rows: Rows, ctx: Context, q: Query)
    requires WellKeyed(rows) && q.pageSize >= 1
    ensures var walk := Walk(rows, ctx, q);
            && (forall i, j {:trigger walk[i], walk[j]} :: 0 <= i < j < |walk| ==> NewerFirst(walk[i], walk[j]))
            && (forall i {:trigger walk[i]} :: 0 <= i < |walk| ==>
                  walk[i].id in rows && rows[walk[i].id].occurredOn == walk[i].occurredOn && rows[walk[i].id].createdAt == walk[i].createdAt)
  {
    PagesTile(rows, ctx, q);
    SortedLists(Selected(rows, ctx, q));
    var walk := Walk(rows, ctx, q);
    forall i, j | 0 <= i < j < |walk| ensures NewerFirst(walk[i], walk[j]) {
      assert Before(walk[i], walk[j]);
    }
    forall i | 0 <= i < |walk|
      ensures walk[i].id in rows && rows[walk[i].id].occurredOn == walk[i].occurredOn && rows[walk[i].id].createdAt == walk[i].createdAt
    {
      assert walk[i] in walk && walk[i] in Selected(rows, ctx, q);
    }
  }

  /** A page is as full as it can be, and names a next one exactly when something is left. */
  lemma PagesAreFull(rows: Rows, ctx: Context, q: Query)
    requires q.pageSize >= 1
    ensures var walk, page, next := Walk(rows, ctx, q), PagePositions(rows, ctx, q), NextPosition(rows, ctx, q);
            && |page| == (if |walk| < q.pageSize then |walk| else q.pageSize) && page == walk[..|page|]
            && (next.Some? <==> |walk| > |page|) && (next.Some? ==> next.value == page[|page| - 1])
  {
    PagesTile(rows, ctx, q);
  }

  /** The single-event query. */
  function VisibleEvent(l: Ledger, ctx: Context, eventId: Uuid): Result<Option<Event>, Error> {
    if !FinanceValid(l.access, ctx) then Err(NotFound)
    else if eventId in l.events && VisibleTo(ctx, l.events[eventId]) then Ok(Some(l.events[eventId])) else Ok(None)
  }

  predicate Unfiltered(q: Query) {
    && q.approvals == [] && q.occurredFrom.None? && q.occurredTo.None? && q.categoryIds == [] && q.kinds == []
    && q.directions == [] && q.activities == [] && q.paymentMethods == [] && q.currencies == []
    && q.archiveScope == Everything && q.after.None?
  }

  /** Without filters, the list shows exactly the events the single-event query shows. */
  lemma ListAgreesWithLookup(l: Ledger, ctx: Context, q: Query, k: Uuid)
    requires WellKeyed(l.events) && q.pageSize >= 1 && Unfiltered(q) && FinanceValid(l.access, ctx)
    ensures (exists p :: p in Walk(l.events, ctx, q) && p.id == k) <==> VisibleEvent(l, ctx, k).value.Some?
  {
    WalkListsEveryEventOnce(l.events, ctx, q);
    if VisibleEvent(l, ctx, k).value.Some? {
      assert Listed(ctx, q, l.events[k]);
      assert PositionOf(l.events[k]) in Walk(l.events, ctx, q) && l.events[k].id == k;
    }
  }

  /**
   Who may see what: without filters the list shows an event, and the single-event query finds it, exactly
   when it is stored and it is the Contributor's own, or approved for the Advisor, or anything for the Admin.
   */
  lemma ReadersSeeExactly(l: Ledger, ctx: Context, q: Query, k: Uuid)
    requires WellKeyed(l.events) && q.pageSize >= 1 && Unfiltered(q)
    ensures (exists p :: p in Walk(l.events, ctx, q) && p.id == k) <==> k in l.events && MayRead(ctx, l.events[k])
    ensures VisibleEvent(l, ctx, k)
            == if !(l.access.financeEnabled && ctx.membership in l.access.members && l.access.members[ctx.membership] == ctx.role)
               then Err(NotFound)
               else if k in l.events && MayRead(ctx, l.events[k]) then Ok(Some(l.events[k])) else Ok(None)
  {
    WalkShowsExactly(l.events, ctx, q, k);
  }

  // ---- A ledger that changes between pages -------------------------------------------------

  /** A page holds exactly what follows its start, up to and including where the next page starts. */
  lemma PageIsAnInterval(rows: Rows, ctx: Context, q: Query, k: Uuid)
    requires q.pageSize >= 1 && k in rows && Listed(ctx, q, rows[k])
    ensures var p, next := PositionOf(rows[k]), NextPosition(rows, ctx, q);
            p in PagePositions(rows, ctx, q) <==> Follows(q.after, p) && (next.None? || p == next.value || Before(p, next.value))
  {
    var s, p := Selected(rows, ctx, q), PositionOf(rows[k]);
    var list, n := Sorted(s), q.pageSize;
    SortedLists(s);
    assert p in list <==> Follows(q.after, p) by {
      assert p in list ==> p in s;
    }
    if |list| > n {
      if p in list[..n] {
        var i :| 0 <= i < n && list[i] == p;
        assert i < n - 1 ==> Before(list[i], list[n - 1]);
      } else if p in list {
        SplitAt(list, n, p);
        var i :| 0 <= i < |list| && list[i] == p;
        assert i >= n ==> list[n..][i - n] == p;
      }
    }
  }

  /** The positions of the pages read from ledger after ledger, each page continuing the one before. */
  ghost predicate Completes(ledgers: seq<Rows>, ctx: Context, q: Query)
    requires q.pageSize >= 1
  {
    ledgers != [] && (NextPosition(ledgers[0], ctx, q).Some? ==> Completes(ledgers[1..], ctx, From(q, NextPosition(ledgers[0], ctx, q))))
  }

  /** How often the pages show an event. */
  ghost function Appearances(ledgers: seq<Rows>, ctx: Context, q: Query, p: Position): nat
    requires q.pageSize >= 1 && Completes(ledgers, ctx, q)
  {
    var next := NextPosition(ledgers[0], ctx, q);
    (if p in PagePositions(ledgers[0], ctx, q) then 1 else 0)
    + if next.None? then 0 else Appearances(ledgers[1..], ctx, From(q, next), p)
  }

  /** The event stays where it is in the list and keeps matching, whatever else changes. */
  ghost predicate StaysListed(ledgers: seq<Rows>, ctx: Context, q: Query, k: Uuid, p: Position) {
    forall i {:trigger ledgers[i]} :: 0 <= i < |ledgers| ==>
      k in ledgers[i] && Listed(ctx, q, ledgers[i][k]) && PositionOf(ledgers[i][k]) == p
  }

  lemma NextMovesOn(rows: Rows, ctx: Context, q: Query)
    requires q.pageSize >= 1 && NextPosition(rows, ctx, q).Some?
    ensures Follows(q.after, NextPosition(rows, ctx, q).value)
  {
    FollowsOnlyForward(rows, ctx, q);
  }

  /**
   Reading pages while the ledger changes: an event that keeps its place and keeps matching is returned
   exactly once if it follows the start, and never otherwise.
   */
  lemma {:induction false} ListedOnceWhileChanging(ledgers: seq<Rows>, ctx: Context, q: Query, k: Uuid, p: Position)
    requires q.pageSize >= 1 && Completes(ledgers, ctx, q) && StaysListed(ledgers, ctx, q, k, p)
    ensures Appearances(ledgers, ctx, q, p) == if Follows(q.after, p) then 1 else 0
    decreases |ledgers|
  {
    var next := NextPosition(ledgers[0], ctx, q);
    assert k in ledgers[0];
    PageIsAnInterval(ledgers[0], ctx, q, k);
    if next.Some? {
      NextMovesOn(ledgers[0], ctx, q);
      StillListedFrom(ledgers, ctx, q, k, p, next);
      ListedOnceWhileChanging(ledgers[1..], ctx, From(q, next), k, p);
      if q.after.Some? && Before(next.value, p) {
        BeforeIsTransitive(q.after.value, next.value, p);
      }
    }
  }

  lemma StillListedFrom(ledgers: seq<Rows>, ctx: Context, q: Query, k: Uuid, p: Position, next: Option<Position>)
    requires ledgers != [] && StaysListed(ledgers, ctx, q, k, p)
    ensures StaysListed(ledgers[1..], ctx, From(q, next), k, p)
  {
  }

  /** The place of an approved event never changes again; before that, only an edit of its date moves it. */
  lemma ApprovedPositionsAreFixed(e: Event, f: Event)
    requires Evolves(e, f)
    ensures e.approval == Approved ==> PositionOf(f) == PositionOf(e)
    ensures PositionOf(f) != PositionOf(e) ==> f.occurredOn != e.occurredOn && e.approval == Pending
  {
  }

  /** An approved event, listed with the archived ones, is returned exactly once however the ledger moves on. */
  lemma SettledEventsAreListedOnce(ledgers: seq<Rows>, ctx: Context, q: Query, k: Uuid)
    requires q.pageSize >= 1 && Completes(ledgers, ctx, q) && q.after.None? && q.archiveScope == Everything
    requires forall i {:trigger ledgers[i]} :: 0 <= i < |ledgers| ==> AllEvolve(ledgers[0], ledgers[i])
    requires k in ledgers[0] && ledgers[0][k].approval == Approved && Listed(ctx, q, ledgers[0][k])
    ensures Appearances(ledgers, ctx, q, PositionOf(ledgers[0][k])) == 1
  {
    var e := ledgers[0][k];
    forall i | 0 <= i < |ledgers|
      ensures k in ledgers[i] && Listed(ctx, q, ledgers[i][k]) && PositionOf(ledgers[i][k]) == PositionOf(e)
    {
      assert Evolves(e, ledgers[i][k]);
      SettledStaysListed(ctx, q, e, ledgers[i][k]);
    }
    ListedOnceWhileChanging(ledgers, ctx, q, k, PositionOf(e));
  }

  lemma SettledStaysListed(ctx: Context, q: Query, e: Event, f: Event)
    requires Evolves(e, f) && e.approval == Approved && q.archiveScope == Everything && Listed(ctx, q, e)
    ensures Listed(ctx, q, f) && PositionOf(f) == PositionOf(e)
  {
  }

  // ---- The query as it is run --------------------------------------------------------------

  /** Keeps the positions in order while the rows come in; the query then cuts the list off. */
  method OrderBy(rows: Rows, statement: set<Uuid>) returns (list: seq<Position>)
    requires statement <= rows.Keys
    ensures list == Sorted(set k | k in statement :: PositionOf(rows[k]))
  {
    var todo := statement;
    list := [];
    while todo != {}
      invariant todo <= statement
      invariant Ascending(list)
      invariant Lists(list, set k | k in statement && k !in todo :: PositionOf(rows[k]))
      decreases |todo|
    {
      var k :| k in todo;
      ghost var done := set j | j in statement && j !in todo :: PositionOf(rows[j]);
      list := InsertInOrder(list, PositionOf(rows[k]));
      todo := todo - {k};
      ghost var now := set j | j in statement && j !in todo :: PositionOf(rows[j]);
      assert now == done + {PositionOf(rows[k])};
    }
    assert (set k | k in statement && k !in todo :: PositionOf(rows[k])) == (set k | k in statement :: PositionOf(rows[k]));
    SortedIsTheOnlyOrder(list, set k | k in statement :: PositionOf(rows[k]));
  }

  method InsertInOrder(list: seq<Position>, p: Position) returns (longer: seq<Position>)
    requires Ascending(list)
    ensures Ascending(longer)
    ensures forall x :: x in longer <==> x in list || x == p
  {
    var i := 0;
    while i < |list| && Before(list[i], p)
      invariant 0 <= i <= |list|
      invariant forall j :: 0 <= j < i ==> Before(list[j], p)
    {
      i := i + 1;
    }
    if i < |list| && list[i] == p {
      return list;
    }
    longer := list[..i] + [p] + list[i..];
    AscendingAround(list, i, p);
    assert forall x :: x in list <==> x in list[..i] || x in list[i..] by {
      assert list == list[..i] + list[i..];
    }
  }

  lemma AscendingAround(list: seq<Position>, i: int, p: Position)
    requires Ascending(list) && 0 <= i <= |list|
    requires forall j :: 0 <= j < i ==> Before(list[j], p)
    requires i < |list| ==> !Before(list[i], p) && list[i] != p
    ensures Ascending(list[..i] + [p] + list[i..])
  {
  }

  method NarrowToVisible(rows: Rows, ctx: Context) returns (statement: set<Uuid>)
    ensures statement == set k | k in rows && VisibleTo(ctx, rows[k])
  {
    statement := rows.Keys;
    if ctx.role == Contributor {
      statement := set k | k in statement && rows[k].createdBy == ctx.membership;
    } else if ctx.role == Advisor {
      statement := set k | k in statement && rows[k].approval == Approved;
    }
  }

  method NarrowToScope(rows: Rows, q: Query, before: set<Uuid>) returns (statement: set<Uuid>)
    requires before <= rows.Keys
    ensures statement == set k | k in before && InScope(q.archiveScope, rows[k]) && (q.approvals != [] ==> rows[k].approval in q.approvals)
  {
    statement := before;
    if q.archiveScope == ActiveOnly {
      statement := set k | k in statement && rows[k].archivedAt.None?;
    } else if q.archiveScope == ArchivedOnly {
      statement := set k | k in statement && rows[k].archivedAt.Some?;
    }
    if q.approvals != [] {
      statement := set k | k in statement && rows[k].approval in q.approvals;
    }
  }

  method NarrowToDates(rows: Rows, q: Query, before: set<Uuid>) returns (statement: set<Uuid>)
    requires before <= rows.Keys
    ensures statement == set k | k in before && Dated(q, rows[k])
  {
    statement := before;
    if q.occurredFrom.Some? {
      statement := set k | k in statement && rows[k].occurredOn >= q.occurredFrom.value;
    }
    if q.occurredTo.Some? {
      statement := set k | k in statement && rows[k].occurredOn < q.occurredTo.value;
    }
  }

  method NarrowToClasses(rows: Rows, q: Query, before: set<Uuid>) returns (statement: set<Uuid>)
    requires before <= rows.Keys
    ensures statement == set k | k in before && Classified(q, rows[k])
  {
    statement := before;
    if q.categoryIds != [] {
      statement := set k | k in statement && rows[k].categoryId in q.categoryIds;
    }
    if q.kinds != [] {
      statement := set k | k in statement && rows[k].kind in q.kinds;
    }
    if q.directions != [] {
      statement := set k | k in statement && rows[k].direction in q.directions;
    }
  }

  method NarrowToLabels(rows: Rows, q: Query, before: set<Uuid>) returns (statement: set<Uuid>)
    requires before <= rows.Keys
    ensures statement == set k | k in before && Labelled(q, rows[k])
  {
    statement := before;
    if q.activities != [] {
      statement := set k | k in statement && rows[k].activity in q.activities;
    }
    if q.paymentMethods != [] {
      statement := set k | k in statement && rows[k].paymentMethod in q.paymentMethods;
    }
    if q.currencies != [] {
      statement := set k | k in statement && rows[k].currency in q.currencies;
    }
  }

  /** The statement of a query, narrowed clause by clause. */
  method Narrow(rows: Rows, ctx: Context, q: Query) returns (statement: set<Uuid>)
    ensures statement <= rows.Keys
    ensures (set k | k in statement :: PositionOf(rows[k])) == Selected(rows, ctx, q)
  {
    statement := NarrowToVisible(rows, ctx);
    statement := NarrowToScope(rows, q, statement);
    statement := NarrowToDates(rows, q, statement);
    statement := NarrowToClasses(rows, q, statement);
    statement := NarrowToLabels(rows, q, statement);
    if q.after.Some? {
      statement := set k | k in statement && Before(q.after.value, PositionOf(rows[k]));
    }
    assert forall k :: k in statement <==> k in rows && Listed(ctx, q, rows[k]) && Follows(q.after, PositionOf(rows[k]));
  }

  /** Every position on a page is the position of a stored row. */
  lemma PageRowsExist(rows: Rows, ctx: Context, q: Query)
    requires WellKeyed(rows) && q.pageSize >= 1
    ensures forall i {:trigger PagePositions(rows, ctx, q)[i]} :: 0 <= i < |PagePositions(rows, ctx, q)| ==> PagePositions(rows, ctx, q)[i].id in rows
  {
    var s := Selected(rows, ctx, q);
    SortedLists(s);
    forall i | 0 <= i < |PagePositions(rows, ctx, q)| ensures PagePositions(rows, ctx, q)[i].id in rows {
      assert Sorted(s)[i] in Sorted(s);
    }
  }

  /** One page: the rows of its positions, and where the next page starts. */
  ghost predicate IsPage(rows: Rows, ctx: Context, q: Query, page: Page)
    requires q.pageSize >= 1
  {
    && page.next == NextPosition(rows, ctx, q)
    && |page.records| == |PagePositions(rows, ctx, q)|
    && forall i :: 0 <= i < |page.records| ==> Holds(rows, PagePositions(rows, ctx, q)[i], page.records[i])
  }

  predicate Holds(rows: Rows, p: Position, e: Event) {
    p.id in rows && rows[p.id] == e
  }

  method Fetch(rows: Rows, visible: seq<Position>) returns (records: seq<Event>)
    requires forall i {:trigger visible[i]} :: 0 <= i < |visible| ==> visible[i].id in rows
    ensures |records| == |visible| && forall i :: 0 <= i < |records| ==> Holds(rows, visible[i], records[i])
  {
    records := [];
    for i := 0 to |visible|
      invariant |records| == i
      invariant forall j :: 0 <= j < i ==> Holds(rows, visible[j], records[j])
    {
      records := records + [rows[visible[i].id]];
    }
  }

  /** The list query: narrowed, ordered, limited to one row past the page, and cut. */
  method ListVisibleEvents(repository: FinanceRepository.Repository, ctx: Context, q: Query)
    returns (r: Result<Page, Error>)
    requires WellKeyed(repository.events) && QueryAccepted(ctx, q)
    ensures if FinanceValid(repository.access, ctx) then r.Ok? && IsPage(repository.events, ctx, q, r.value) else r == Err(NotFound)
  {
    if !FinanceValid(repository.access, ctx) {
      return Err(NotFound);
    }
    var stored := repository.events;
    var statement := Narrow(stored, ctx, q);
    var list := OrderBy(stored, statement);
    var rows := if |list| > q.pageSize + 1 then list[..q.pageSize + 1] else list;
    var hasMore := |rows| > q.pageSize;
    var visible := if hasMore then rows[..q.pageSize] else rows;
    assert visible == PagePositions(stored, ctx, q);
    PageRowsExist(stored, ctx, q);
    var records := Fetch(stored, visible);
    var next := if hasMore then Some(visible[|visible| - 1]) else None;
    r := Ok(Page(records, next));
  }
}
