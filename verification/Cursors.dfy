/** Pagination cursors: a position and its scope, dated, encoded and signed. */
module Cursors {
  import opened Common
  import opened Arithmetic
  import opened Calendar
  import opened CursorTexts
  import Base64Url
  import Pagination

  // ---- What a cursor carries ---------------------------------------------------------------

  /** The positions the program's dates and instants can express. */
  type Position = p: Pagination.Position | 1 <= p.occurredOn <= LAST_DAY && InCalendar(p.createdAt)
    witness Pagination.Position(1, 0, 0)

  const CURSOR_VERSION := 1
  const CURSOR_LIFETIME: int := 24 * HOUR
  const MAXIMUM_CURSOR_LENGTH := 1024
  const SIGNATURE_LENGTH := 64

  /** Whole seconds of an instant, cut off towards zero. */
  function Seconds(t: Instant): int {
    if t >= 0 then t / SECOND else -((-t) / SECOND)
  }

  predicate ScopeValid(scope: string) {
    |scope| == 64 && IsHex(scope)
  }

  ghost function PayloadOf(p: Position, scope: string, now: Instant): Payload {
    Payload(CURSOR_VERSION, scope, DateText(DateAt(p.occurredOn)), DateTimeText(MomentOf(p.createdAt)), UuidText(p.id),
            Seconds(now + CURSOR_LIFETIME))
  }

  // ---- What the libraries are trusted with -------------------------------------------------

  /** The keyed digest, and the parsers of texts the program itself prints. */
  datatype Library = Library(
    sign: string -> string,
    verify: (string, string) -> bool,
    parsePayload: string -> Option<Payload>,
    parseDate: string -> Option<Date>,
    parseDateTime: string -> Option<DateTime>,
    parseUuid: string -> Option<Uuid>)

  /** Signatures are 64 hexadecimal digits, and the digest confirms its own. */
  ghost predicate SignsWell(lib: Library) {
    forall text :: |lib.sign(text)| == SIGNATURE_LENGTH && IsHex(lib.sign(text)) && lib.verify(text, lib.sign(text))
  }

  /** The payloads the program signs. */
  ghost predicate Signed(payload: Payload) {
    exists p: Position, scope, now :: ScopeValid(scope) && InCalendar(now + CURSOR_LIFETIME) && payload == PayloadOf(p, scope, now)
  }

  /** All that is assumed of the libraries: the parsers give back what is printed for the payloads that are signed. */
  ghost predicate Trusted(lib: Library) {
    && SignsWell(lib)
    && (forall p: Payload {:trigger PayloadText(p)} :: Signed(p) ==> lib.parsePayload(PayloadText(p)) == Some(p))
    && (forall d {:trigger DateText(d)} :: DateValid(d) ==> lib.parseDate(DateText(d)) == Some(d))
    && (forall t {:trigger DateTimeText(t)} :: DateTimeValid(t) ==> lib.parseDateTime(DateTimeText(t)) == Some(t))
    && (forall u: Uuid {:trigger UuidText(u)} :: lib.parseUuid(UuidText(u)) == Some(u))
  }

  // ---- Encoding and decoding ---------------------------------------------------------------

  predicate Ascii(text: string) {
    forall i :: 0 <= i < |text| ==> text[i] < 128 as char
  }

  function AsciiBytes(text: string): seq<Base64Url.Byte>
    requires Ascii(text)
  {
    seq(|text|, i requires 0 <= i < |text| => text[i] as int)
  }

  function AsciiText(bytes: seq<Base64Url.Byte>): Option<string> {
    if forall i :: 0 <= i < |bytes| ==> bytes[i] < 128
    then Some(seq(|bytes|, i requires 0 <= i < |bytes| => bytes[i] as char)) else None
  }

  datatype CursorError = InvalidScope | OutsideCalendar | InvalidCursor

  /** The part of a cursor that is signed. */
  ghost function SignedText(p: Position, scope: string, now: Instant): string
    requires ScopeValid(scope) && InCalendar(now + CURSOR_LIFETIME)
  {
    PayloadShape(p, scope, now);
    Base64Url.Encode(AsciiBytes(PayloadText(PayloadOf(p, scope, now))))
  }

  ghost function Encode(lib: Library, p: Position, scope: string, now: Instant): Result<string, CursorError> {
    if !ScopeValid(scope) then Err(InvalidScope)
    else if !InCalendar(now) || !InCalendar(now + CURSOR_LIFETIME) then Err(OutsideCalendar)
    else
      var payload := SignedText(p, scope, now);
      Ok(payload + ("." + lib.sign(payload)))
  }

  function DecodePayload(lib: Library, text: string): Option<Payload> {
    match Base64Url.Decode(text)
    case None => None
    case Some(bytes) => match AsciiText(bytes)
      case None => None
      case Some(raw) => lib.parsePayload(raw)
  }

  function Decode(lib: Library, value: string, expectedScope: string, now: Instant): Result<Pagination.Position, CursorError> {
    if !(1 <= |value| <= MAXIMUM_CURSOR_LENGTH) || !Ascii(value) then Err(InvalidCursor)
    else match SplitAt(value, '.')
      case None => Err(InvalidCursor)
      case Some((payloadText, signature)) =>
        if |signature| != SIGNATURE_LENGTH || !lib.verify(payloadText, signature) then Err(InvalidCursor)
        else match DecodePayload(lib, payloadText)
          case None => Err(InvalidCursor)
          case Some(payload) =>
            if payload.version != CURSOR_VERSION || payload.scope != expectedScope || Seconds(now) >= payload.expiry then Err(InvalidCursor)
            else Place(lib, payload)
  }

  function Place(lib: Library, payload: Payload): Result<Pagination.Position, CursorError> {
    match (lib.parseDate(payload.occurredOn), lib.parseDateTime(payload.createdAt), lib.parseUuid(payload.id))
    case (Some(d), Some(t), Some(u)) =>
      if DateValid(d) && DateTimeValid(t) then Ok(Pagination.Position(OrdinalOf(d), InstantOf(t), u)) else Err(InvalidCursor)
    case _ => Err(InvalidCursor)
  }

  // ---- Lengths -----------------------------------------------------------------------------

  lemma AsciiRoundTrip(text: string)
    requires Ascii(text)
    ensures AsciiText(AsciiBytes(text)) == Some(text)
  {
    var bytes := AsciiBytes(text);
    assert forall i :: 0 <= i < |bytes| ==> bytes[i] < 128;
    assert AsciiText(bytes).value == text;
  }

  lemma CleanIsAscii(text: string)
    requires Clean(text)
    ensures Ascii(text)
  {
  }

  lemma AsciiJoins(a: string, b: string)
    requires Ascii(a) && Ascii(b)
    ensures Ascii(a + b) && |a + b| == |a| + |b|
  {
  }

  lemma FieldShape(opening: string, value: string, stop: char, rest: string)
    requires Ascii(opening) && Ascii(value) && stop < 128 as char && Ascii(rest)
    ensures var text := Field(opening, value, stop, rest);
            Ascii(text) && |text| == |opening| + |value| + 1 + |rest|
  {
  }

  lemma ExpiryShape(now: Instant)
    requires InCalendar(now)
    ensures |IntegerText(Seconds(now))| <= 13 && Ascii(IntegerText(Seconds(now)))
  {
    PowersOfTen();
    Pow10Adds(6, 6);
    var n := Seconds(now);
    assert -62_135_596_800 <= n <= 253_402_300_800;
    IntegerTextLength(n, 12);
    IntegersAreRead(n);
    CleanIsAscii(IntegerText(n));
  }

  lemma VersionShape(p: Payload)
    requires p.version == CURSOR_VERSION
    ensures Ascii(FromVersion(p)) && |FromVersion(p)| == 7
  {
    assert IntegerText(1) == "1";
  }

  lemma PlaceShape(p: Payload)
    requires Ascii(p.scope) && |p.scope| == 64 && p.version == CURSOR_VERSION && Ascii(p.occurredOn) && |p.occurredOn| == 10
    ensures Ascii(FromDate(p)) && |FromDate(p)| == 109
  {
    VersionShape(p);
    FieldShape(",\"scope\":\"", p.scope, '"', FromVersion(p));
    FieldShape(",\"occurred_on\":\"", p.occurredOn, '"', FromScope(p));
  }

  lemma TimesShape(p: Payload)
    requires Ascii(p.createdAt) && |p.createdAt| <= 32 && Ascii(IntegerText(p.expiry)) && |IntegerText(p.expiry)| <= 13
    requires Ascii(p.id) && |p.id| == 36 && Ascii(FromDate(p)) && |FromDate(p)| == 109
    ensures Ascii(PayloadText(p)) && |PayloadText(p)| <= 221
  {
    FieldShape("\"id\":\"", p.id, '"', FromDate(p));
    FieldShape(",\"exp\":", IntegerText(p.expiry), ',', FromId(p));
    FieldShape("{\"created_at\":\"", p.createdAt, '"', FromExpiry(p));
  }

  lemma PayloadShape(p: Position, scope: string, now: Instant)
    requires ScopeValid(scope) && InCalendar(now + CURSOR_LIFETIME)
    ensures Ascii(PayloadText(PayloadOf(p, scope, now))) && |PayloadText(PayloadOf(p, scope, now))| <= 221
  {
    var payload := PayloadOf(p, scope, now);
    DateTextShape(DateAt(p.occurredOn));
    CleanIsAscii(payload.occurredOn);
    DateTimeTextShape(MomentOf(p.createdAt));
    CleanIsAscii(payload.createdAt);
    UuidTextShape(p.id);
    CleanIsAscii(payload.id);
    ExpiryShape(now + CURSOR_LIFETIME);
    assert Ascii(scope);
    PlaceShape(payload);
    TimesShape(payload);
  }

  // ---- The theorems ------------------------------------------------------------------------

  lemma AlphabetIsAscii(text: string)
    requires Base64Url.InAlphabet(text)
    ensures Ascii(text)
  {
  }

  lemma SignedTextShape(p: Position, scope: string, now: Instant)
    requires ScopeValid(scope) && InCalendar(now + CURSOR_LIFETIME)
    ensures var text := SignedText(p, scope, now); '.' !in text && Ascii(text) && |text| <= 296
  {
    PayloadShape(p, scope, now);
    Base64Url.EncodeShape(AsciiBytes(PayloadText(PayloadOf(p, scope, now))));
    AlphabetIsAscii(SignedText(p, scope, now));
  }

  /** A cursor is never too long to be read back: 361 characters at the most. */
  lemma EncodedCursorsAreShort(lib: Library, p: Position, scope: string, now: Instant)
    requires SignsWell(lib) && Encode(lib, p, scope, now).Ok?
    ensures 1 <= |Encode(lib, p, scope, now).value| <= 361 < MAXIMUM_CURSOR_LENGTH && Ascii(Encode(lib, p, scope, now).value)
  {
    SignedTextShape(p, scope, now);
    var payload := SignedText(p, scope, now);
    assert |lib.sign(payload)| == SIGNATURE_LENGTH && IsHex(lib.sign(payload));
    HexIsClean(lib.sign(payload));
    CleanIsAscii(lib.sign(payload));
    AsciiJoins(".", lib.sign(payload));
    AsciiJoins(payload, "." + lib.sign(payload));
  }

  lemma PayloadComesBack(lib: Library, p: Position, scope: string, now: Instant)
    requires Trusted(lib) && ScopeValid(scope) && InCalendar(now + CURSOR_LIFETIME)
    ensures DecodePayload(lib, SignedText(p, scope, now)) == Some(PayloadOf(p, scope, now))
  {
    PayloadShape(p, scope, now);
    var payload := PayloadOf(p, scope, now);
    assert Signed(payload);
    Base64Url.DecodeUndoesEncode(AsciiBytes(PayloadText(payload)));
    AsciiRoundTrip(PayloadText(payload));
  }

  lemma PlaceComesBack(lib: Library, p: Position, scope: string, now: Instant)
    requires Trusted(lib)
    ensures Place(lib, PayloadOf(p, scope, now)) == Ok(p)
  {
    DateAtHasOrdinal(p.occurredOn);
    DayNumbersAreExact(p.occurredOn);
    MomentsAreExact(p.createdAt);
    assert lib.parseDate(DateText(DateAt(p.occurredOn))) == Some(DateAt(p.occurredOn));
    assert lib.parseDateTime(DateTimeText(MomentOf(p.createdAt))) == Some(MomentOf(p.createdAt));
    assert lib.parseUuid(UuidText(p.id)) == Some(p.id);
  }

  /**
   A cursor gives its position back to the scope it was made for until its expiry second begins, and is
   refused in every other scope and at every later time.
   */
  lemma CursorsComeBack(lib: Library, p: Position, scope: string, now: Instant, expectedScope: string, later: Instant)
    requires Trusted(lib) && Encode(lib, p, scope, now).Ok?
    ensures Decode(lib, Encode(lib, p, scope, now).value, expectedScope, later)
            == if expectedScope == scope && Seconds(later) < Seconds(now + 24 * HOUR) then Ok(p) else Err(InvalidCursor)
  {
    SignedTextShape(p, scope, now);
    EncodedCursorsAreShort(lib, p, scope, now);
    var payload := SignedText(p, scope, now);
    SplitsBack(payload, '.', lib.sign(payload));
    assert "." == ['.'];
    PayloadComesBack(lib, p, scope, now);
    PlaceComesBack(lib, p, scope, now);
  }

  /** What is accepted was signed: decoding never returns a position whose text the digest does not confirm. */
  lemma AcceptedCursorsAreSigned(lib: Library, value: string, expectedScope: string, now: Instant)
    requires Decode(lib, value, expectedScope, now).Ok?
    ensures exists payload, signature :: value == payload + "." + signature && lib.verify(payload, signature) && '.' !in payload
  {
    SplitJoins(value, '.');
    var (payload, signature) := SplitAt(value, '.').value;
    assert value == payload + "." + signature;
  }

  /** Seconds are whole and lie towards zero, less than one away. */
  lemma SecondsAreCutOff(t: Instant)
    ensures t >= 0 ==> Seconds(t) * SECOND <= t < (Seconds(t) + 1) * SECOND
    ensures t < 0 ==> (Seconds(t) - 1) * SECOND < t <= Seconds(t) * SECOND
  {
  }

  /** The plain seven-bit characters. */
  predicate SevenBit(text: string) {
    forall c :: c in text ==> c as int < 128
  }

  lemma SevenBitIsAscii(text: string)
    ensures Ascii(text) <==> SevenBit(text)
  {
    assert forall i :: 0 <= i < |text| ==> text[i] in text;
  }

  /** What is refused before its payload is read: a text that is empty, too long, not seven-bit, unsplit, or not signed. */
  lemma MalformedCursorsAreRefused(lib: Library, value: string, expectedScope: string, now: Instant)
    ensures Decode(lib, value, expectedScope, now).Ok? ==>
              && 1 <= |value| <= 1024 && SevenBit(value) && '.' in value
              && exists payload, signature :: value == payload + "." + signature && '.' !in payload && |signature| == 64 && lib.verify(payload, signature)
  {
    SevenBitIsAscii(value);
    if Decode(lib, value, expectedScope, now).Ok? {
      SplitJoins(value, '.');
      var (payload, signature) := SplitAt(value, '.').value;
      assert value == payload + "." + signature;
      assert value[|payload|] == '.';
    }
  }

  /** What a signed payload is answered: it has to be read, of this version and scope, not over, and name a place on the calendar. */
  lemma SignedPayloadAnswers(lib: Library, payload: string, signature: string, expectedScope: string, now: Instant)
    requires '.' !in payload && |signature| == 64 && lib.verify(payload, signature)
    requires SevenBit(payload + "." + signature) && |payload| <= 1024 - 65
    ensures var r := Decode(lib, payload + "." + signature, expectedScope, now);
            match DecodePayload(lib, payload)
            case None => r == Err(InvalidCursor)
            case Some(p) =>
              var d, t, u := lib.parseDate(p.occurredOn), lib.parseDateTime(p.createdAt), lib.parseUuid(p.id);
              && (r.Ok? <==> p.version == 1 && p.scope == expectedScope && Seconds(now) < p.expiry
                             && d.Some? && t.Some? && u.Some? && DateValid(d.value) && DateTimeValid(t.value))
              && (r.Ok? ==> r.value == Pagination.Position(OrdinalOf(d.value), InstantOf(t.value), u.value))
              && (r.Err? ==> r.error == InvalidCursor)
  {
    SevenBitIsAscii(payload + "." + signature);
    SplitsBack(payload, '.', signature);
    assert payload + "." + signature == payload + (['.'] + signature);
  }

  /** Seven-bit bytes are read as the characters they are, any other byte not at all. */
  lemma BytesAreSevenBit(bytes: seq<Base64Url.Byte>)
    ensures AsciiText(bytes).Some? <==> forall i :: 0 <= i < |bytes| ==> bytes[i] <= 127
    ensures AsciiText(bytes).Some? ==> |AsciiText(bytes).value| == |bytes| && forall i :: 0 <= i < |bytes| ==> AsciiText(bytes).value[i] as int == bytes[i]
  {
  }

  // ---- Why the libraries can be trusted ----------------------------------------------------

  lemma SignedPayloadsArePlain(payload: Payload)
    requires Signed(payload)
    ensures Plain(payload)
  {
    var p: Position, scope, now :| ScopeValid(scope) && InCalendar(now + CURSOR_LIFETIME) && payload == PayloadOf(p, scope, now);
    DateTextShape(DateAt(p.occurredOn));
    DateTimeTextShape(MomentOf(p.createdAt));
    UuidTextShape(p.id);
    HexIsClean(scope);
  }

  /** Strict readers of the printed formats meet the assumptions, whatever signs well. */
  lemma ReadersCanBeTrusted(lib: Library)
    requires SignsWell(lib)
    ensures Trusted(lib.(parsePayload := ReadPayload, parseDate := ReadDate, parseDateTime := ReadDateTime, parseUuid := ReadUuid))
  {
    forall p: Payload | Signed(p) ensures ReadPayload(PayloadText(p)) == Some(p) {
      SignedPayloadsArePlain(p);
      PayloadsAreRead(p);
    }
    forall d | DateValid(d) ensures ReadDate(DateText(d)) == Some(d) {
      DatesAreRead(d);
    }
    forall t | DateTimeValid(t) ensures ReadDateTime(DateTimeText(t)) == Some(t) {
      DateTimesAreRead(t);
    }
    forall u: Uuid ensures ReadUuid(UuidText(u)) == Some(u) {
      UuidsAreRead(u);
    }
  }

  /** So the assumptions can be met together, by parsers that really parse. */
  lemma TrustIsConsistent()
    ensures exists lib :: Trusted(lib) && lib.parsePayload == ReadPayload && lib.parseDate == ReadDate
                          && lib.parseDateTime == ReadDateTime && lib.parseUuid == ReadUuid
  {
    var sign := (text: string) => seq(SIGNATURE_LENGTH, i => '0');
    var lib := Library(sign, (text: string, signature: string) => signature == sign(text), ReadPayload, ReadDate, ReadDateTime, ReadUuid);
    assert SignsWell(lib);
    ReadersCanBeTrusted(lib);
    assert Trusted(lib);
  }
}
