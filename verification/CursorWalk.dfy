/**
 A client that reads the list page by page through signed cursors sees what following the positions
 themselves would show.
 */
module CursorWalk {
  import opened Common
  import opened Arithmetic
  import opened Calendar
  import opened Ledger
  import opened Pagination
  import opened Cursors

  /** The dates and instants of the rows are ones the program can hold. */
  ghost predicate RowsInCalendar(rows: Rows) {
    forall k {:trigger rows[k]} :: k in rows ==> 1 <= rows[k].occurredOn <= LAST_DAY && InCalendar(rows[k].createdAt)
  }

  /** Each request comes within the life of the cursor the one before it returned. */
  predicate Prompt(times: seq<Instant>) {
    && (forall i :: 0 <= i < |times| ==> InCalendar(times[i]) && InCalendar(times[i] + CURSOR_LIFETIME))
    && (forall i, j {:trigger times[i], times[j]} :: 0 <= i && j == i + 1 < |times| ==> Seconds(times[j]) < Seconds(times[i] + CURSOR_LIFETIME))
  }

  /** One page as a response: its positions, and the cursor for the rest. */
  datatype Response = Response(listed: seq<Pagination.Position>, cursor: Option<string>)

  /** Serves a page at a time; the cursor it came with has been decoded into the query. */
  ghost function Serve(lib: Library, rows: Rows, ctx: Context, q: Query, scope: string, now: Instant): Result<Response, CursorError>
    requires q.pageSize >= 1 && RowsInCalendar(rows)
  {
    var next := NextPosition(rows, ctx, q);
    if next.None? then Ok(Response(PagePositions(rows, ctx, q), None))
    else
      NextIsInCalendar(rows, ctx, q);
      match Encode(lib, next.value, scope, now)
      case Err(e) => Err(e)
      case Ok(cursor) => Ok(Response(PagePositions(rows, ctx, q), Some(cursor)))
  }

  lemma NextIsInCalendar(rows: Rows, ctx: Context, q: Query)
    requires q.pageSize >= 1 && RowsInCalendar(rows) && NextPosition(rows, ctx, q).Some?
    ensures var p := NextPosition(rows, ctx, q).value; 1 <= p.occurredOn <= LAST_DAY && InCalendar(p.createdAt)
  {
    FollowsOnlyForward(rows, ctx, q);
  }

  /** Everything a client collects that asks at the given times and hands each cursor back; None if it is not through by then. */
  ghost function ClientWalk(lib: Library, rows: Rows, ctx: Context, q: Query, scope: string, times: seq<Instant>): Option<seq<Pagination.Position>>
    requires q.pageSize >= 1 && RowsInCalendar(rows)
    decreases |times|
  {
    if times == [] then None
    else match Serve(lib, rows, ctx, q, scope, times[0])
      case Err(_) => None
      case Ok(Response(listed, None)) => Some(listed)
      case Ok(Response(listed, Some(cursor))) =>
        if |times| == 1 then None
        else match Decode(lib, cursor, scope, times[1])
          case Err(_) => None
          case Ok(p) => match ClientWalk(lib, rows, ctx, From(q, Some(p)), scope, times[1..])
            case None => None
            case Some(rest) => Some(listed + rest)
  }

  /** The cursor of a page encodes its next position. */
  lemma CursorIsEncoded(lib: Library, rows: Rows, ctx: Context, q: Query, scope: string, now: Instant)
    requires q.pageSize >= 1 && RowsInCalendar(rows) && ScopeValid(scope) && NextPosition(rows, ctx, q).Some?
    requires InCalendar(now) && InCalendar(now + CURSOR_LIFETIME)
    ensures var p := NextPosition(rows, ctx, q).value;
            && 1 <= p.occurredOn <= LAST_DAY && InCalendar(p.createdAt)
            && Encode(lib, p, scope, now).Ok?
            && Serve(lib, rows, ctx, q, scope, now) == Ok(Response(PagePositions(rows, ctx, q), Some(Encode(lib, p, scope, now).value)))
  {
    NextIsInCalendar(rows, ctx, q);
  }

  lemma CursorIsServed(lib: Library, rows: Rows, ctx: Context, q: Query, scope: string, now: Instant)
    requires q.pageSize >= 1 && RowsInCalendar(rows) && ScopeValid(scope) && NextPosition(rows, ctx, q).Some?
    requires InCalendar(now) && InCalendar(now + CURSOR_LIFETIME)
    ensures var served := Serve(lib, rows, ctx, q, scope, now);
            served.Ok? && served.value.listed == PagePositions(rows, ctx, q) && served.value.cursor.Some?
  {
    CursorIsEncoded(lib, rows, ctx, q, scope, now);
  }

  lemma CursorIsFollowed(lib: Library, rows: Rows, ctx: Context, q: Query, scope: string, now: Instant, later: Instant)
    requires q.pageSize >= 1 && RowsInCalendar(rows) && Trusted(lib) && ScopeValid(scope) && NextPosition(rows, ctx, q).Some?
    requires InCalendar(now) && InCalendar(now + CURSOR_LIFETIME) && Seconds(later) < Seconds(now + CURSOR_LIFETIME)
    ensures var served := Serve(lib, rows, ctx, q, scope, now);
            && served.Ok? && served.value.listed == PagePositions(rows, ctx, q) && served.value.cursor.Some?
            && Decode(lib, served.value.cursor.value, scope, later) == Ok(NextPosition(rows, ctx, q).value)
  {
    CursorIsEncoded(lib, rows, ctx, q, scope, now);
    CursorsComeBack(lib, NextPosition(rows, ctx, q).value, scope, now, scope, later);
  }

  /** A walk with a page and a cursor goes on where the cursor points. */
  lemma WalkGoesOn(lib: Library, rows: Rows, ctx: Context, q: Query, scope: string, times: seq<Instant>, cursor: string,
                   p: Pagination.Position)
    requires q.pageSize >= 1 && RowsInCalendar(rows) && |times| > 1
    requires Serve(lib, rows, ctx, q, scope, times[0]) == Ok(Response(PagePositions(rows, ctx, q), Some(cursor)))
    requires Decode(lib, cursor, scope, times[1]) == Ok(p)
    ensures var rest := ClientWalk(lib, rows, ctx, From(q, Some(p)), scope, times[1..]);
            ClientWalk(lib, rows, ctx, q, scope, times)
            == if rest.None? then None else Some(PagePositions(rows, ctx, q) + rest.value)
  {
  }

  lemma WalkIsCutShort(lib: Library, rows: Rows, ctx: Context, q: Query, scope: string, times: seq<Instant>)
    requires q.pageSize >= 1 && RowsInCalendar(rows) && |times| == 1
    requires Serve(lib, rows, ctx, q, scope, times[0]).Ok? && Serve(lib, rows, ctx, q, scope, times[0]).value.cursor.Some?
    ensures ClientWalk(lib, rows, ctx, q, scope, times) == None
  {
  }

  lemma WalkEnds(lib: Library, rows: Rows, ctx: Context, q: Query, scope: string, times: seq<Instant>)
    requires q.pageSize >= 1 && RowsInCalendar(rows) && times != [] && NextPosition(rows, ctx, q).None?
    ensures ClientWalk(lib, rows, ctx, q, scope, times) == Some(Sorted(Selected(rows, ctx, q)))
    ensures |Sorted(Selected(rows, ctx, q))| <= q.pageSize
  {
  }

  lemma PageAndRest(rows: Rows, ctx: Context, q: Query)
    requires q.pageSize >= 1 && NextPosition(rows, ctx, q).Some?
    ensures var list, rest := Sorted(Selected(rows, ctx, q)), Sorted(Selected(rows, ctx, From(q, NextPosition(rows, ctx, q))));
            |list| > q.pageSize && |rest| == |list| - q.pageSize && list == PagePositions(rows, ctx, q) + rest
  {
    NextSelectsTheRest(rows, ctx, q);
  }

  /** What a walk with room for so many positions amounts to. */
  ghost predicate Collects(walk: Option<seq<Pagination.Position>>, list: seq<Pagination.Position>, requests: nat,
                           room: int) {
    walk == if requests > 0 && |list| <= room then Some(list) else None
  }

  /** The room of as many requests of one page each. */
  predicate IsRoom(requests: nat, size: int, room: int) {
    room == requests * size
  }

  lemma RoomShrinks(requests: nat, size: int, room: int)
    requires size >= 1 && requests > 0 && IsRoom(requests, size, room)
    ensures IsRoom(requests - 1, size, room - size)
    ensures room >= size && (requests == 1 ==> room == size)
  {
    MulDistributes(requests - 1, 1, size);
    MulIsMonotone(1, requests, size);
  }

  lemma WalkContinues(lib: Library, rows: Rows, ctx: Context, q: Query, scope: string, times: seq<Instant>,
                      next: Option<Pagination.Position>)
    requires q.pageSize >= 1 && RowsInCalendar(rows) && |times| > 1 && next == NextPosition(rows, ctx, q) && next.Some?
    requires Trusted(lib) && ScopeValid(scope) && Prompt(times)
    ensures var rest := ClientWalk(lib, rows, ctx, From(q, next), scope, times[1..]);
            ClientWalk(lib, rows, ctx, q, scope, times)
            == if rest.None? then None else Some(PagePositions(rows, ctx, q) + rest.value)
  {
    CursorIsFollowed(lib, rows, ctx, q, scope, times[0], times[1]);
    WalkGoesOn(lib, rows, ctx, q, scope, times, Serve(lib, rows, ctx, q, scope, times[0]).value.cursor.value, next.value);
  }

  lemma ListContinues(rows: Rows, ctx: Context, q: Query, requests: nat, room: int,
                      walk: Option<seq<Pagination.Position>>,
                      rest: Option<seq<Pagination.Position>>)
    requires q.pageSize >= 1 && NextPosition(rows, ctx, q).Some? && requests > 1
    requires Collects(rest, Sorted(Selected(rows, ctx, From(q, NextPosition(rows, ctx, q)))), requests - 1, room - q.pageSize)
    requires walk == if rest.None? then None else Some(PagePositions(rows, ctx, q) + rest.value)
    ensures Collects(walk, Sorted(Selected(rows, ctx, q)), requests, room)
  {
    PageAndRest(rows, ctx, q);
  }

  /** One page more: from what the rest collects to what the whole walk does. */
  lemma WalkGrows(lib: Library, rows: Rows, ctx: Context, q: Query, scope: string, times: seq<Instant>, room: int)
    requires q.pageSize >= 1 && RowsInCalendar(rows) && |times| > 1 && NextPosition(rows, ctx, q).Some?
    requires Trusted(lib) && ScopeValid(scope) && Prompt(times)
    requires Collects(ClientWalk(lib, rows, ctx, From(q, NextPosition(rows, ctx, q)), scope, times[1..]),
                      Sorted(Selected(rows, ctx, From(q, NextPosition(rows, ctx, q)))), |times| - 1, room - q.pageSize)
    ensures Collects(ClientWalk(lib, rows, ctx, q, scope, times), Sorted(Selected(rows, ctx, q)), |times|, room)
  {
    var next := NextPosition(rows, ctx, q);
    WalkContinues(lib, rows, ctx, q, scope, times, next);
    ListContinues(rows, ctx, q, |times|, room, ClientWalk(lib, rows, ctx, q, scope, times), ClientWalk(lib, rows, ctx, From(q, next), scope, times[1..]));
  }

  /** The walks of one request or none, and those whose list fits a page. */
  lemma ShortWalks(lib: Library, rows: Rows, ctx: Context, q: Query, scope: string, times: seq<Instant>, room: int)
    requires q.pageSize >= 1 && RowsInCalendar(rows) && ScopeValid(scope) && Prompt(times)
    requires |times| <= 1 || NextPosition(rows, ctx, q).None?
    requires times != [] ==> room >= q.pageSize && (|times| == 1 ==> room == q.pageSize)
    ensures Collects(ClientWalk(lib, rows, ctx, q, scope, times), Sorted(Selected(rows, ctx, q)), |times|, room)
  {
    if times != [] && NextPosition(rows, ctx, q).None? {
      WalkEnds(lib, rows, ctx, q, scope, times);
    } else if times != [] {
      CursorIsServed(lib, rows, ctx, q, scope, times[0]);
      WalkIsCutShort(lib, rows, ctx, q, scope, times);
      PageAndRest(rows, ctx, q);
    }
  }

  lemma {:induction false} ClientsCollect(lib: Library, rows: Rows, ctx: Context, q: Query, scope: string,
                                          times: seq<Instant>, room: int)
    requires q.pageSize >= 1 && RowsInCalendar(rows) && Trusted(lib) && ScopeValid(scope) && Prompt(times)
    requires IsRoom(|times|, q.pageSize, room)
    ensures Collects(ClientWalk(lib, rows, ctx, q, scope, times), Sorted(Selected(rows, ctx, q)), |times|, room)
    decreases |times|
  {
    if times != [] {
      RoomShrinks(|times|, q.pageSize, room);
    }
    if |times| <= 1 || NextPosition(rows, ctx, q).None? {
      ShortWalks(lib, rows, ctx, q, scope, times, room);
    } else {
      StillPrompt(times);
      ClientsCollect(lib, rows, ctx, From(q, NextPosition(rows, ctx, q)), scope, times[1..], room - q.pageSize);
      WalkGrows(lib, rows, ctx, q, scope, times, room);
    }
  }

  /**
   A client that hands each cursor back in time collects exactly the selection in order, each position
   once, as soon as it has asked for enough pages, and is not through before that.
   */
  lemma ClientsSeeTheList(lib: Library, rows: Rows, ctx: Context, q: Query, scope: string, times: seq<Instant>)
    requires q.pageSize >= 1 && RowsInCalendar(rows) && Trusted(lib) && ScopeValid(scope) && Prompt(times)
    ensures var list := Sorted(Selected(rows, ctx, q));
            ClientWalk(lib, rows, ctx, q, scope, times)
            == if times != [] && |list| <= |times| * q.pageSize then Some(list) else None
  {
    ClientsCollect(lib, rows, ctx, q, scope, times, |times| * q.pageSize);
  }

  lemma StillPrompt(times: seq<Instant>)
    requires Prompt(times) && times != []
    ensures Prompt(times[1..])
  {
    var rest := times[1..];
    forall i, j | 0 <= i && j == i + 1 < |rest| ensures Seconds(rest[j]) < Seconds(rest[i] + CURSOR_LIFETIME) {
      assert rest[i] == times[i + 1] && rest[j] == times[j + 1];
    }
  }
}
