/**
 The texts inside a cursor: dates, instants, identifiers and the compact object that holds them, as the
 program prints them, each with a reader that gives back exactly what was printed.
 */
module CursorTexts {
  import opened Common
  import opened Arithmetic
  import opened Calendar
  import opened DecimalText

  /** A text the object text can hold as it is: printable, without quotes or backslashes. */
  predicate Clean(text: string) {
    forall i :: 0 <= i < |text| ==> ' ' <= text[i] < 127 as char && text[i] != '"' && text[i] != '\\'
  }

  lemma CleanJoins(a: string, b: string)
    requires Clean(a) && Clean(b)
    ensures Clean(a + b) && |a + b| == |a| + |b|
  {
  }

  lemma DigitsAreClean(text: string)
    requires AllDigits(text)
    ensures Clean(text)
  {
  }

  // ---- Numbers -----------------------------------------------------------------------------

  function ReadDigits(text: string): Option<nat> {
    if text != "" && AllDigits(text) then Some(Number(text)) else None
  }

  lemma {:induction false} HighPartOfShort(n: nat, width: nat)
    requires n < Pow10(width)
    ensures HighPart(n, width) == 0
  {
    if width > 0 {
      HighPartOfShort(n / 10, width - 1);
    }
  }

  lemma LowDigitsAreRead(n: nat, width: nat)
    requires width > 0 && n < Pow10(width)
    ensures ReadDigits(LowDigits(n, width)) == Some(n)
  {
    HighPartOfShort(n, width);
    HalvesRebuild(n, width);
  }

  function IntegerText(n: int): string {
    if n < 0 then "-" + DigitString(-n) else DigitString(n)
  }

  function ReadInteger(text: string): Option<int> {
    var negative := text != "" && text[0] == '-';
    var digits := ReadDigits(if negative then text[1..] else text);
    if digits.None? then None
    else
      var n: int := digits.value;
      Some(if negative then -n else n)
  }

  lemma IntegersAreRead(n: int)
    ensures ReadInteger(IntegerText(n)) == Some(n)
    ensures Clean(IntegerText(n)) && ',' !in IntegerText(n) && '}' !in IntegerText(n)
  {
    var digits := DigitString(Magnitude(n));
    DigitsAreClean(digits);
    if n < 0 {
      assert IntegerText(n)[1..] == digits;
    } else {
      assert IntegerText(n) == digits && IsDigit(digits[0]);
    }
  }

  lemma IntegerTextLength(n: int, width: nat)
    requires width > 0 && Magnitude(n) < Pow10(width)
    ensures |IntegerText(n)| <= width + 1
  {
    var digits := DigitString(Magnitude(n));
    if |digits| > 1 {
      LeadingDigitMakesItLarge(digits);
    }
    if |digits| > width {
      Pow10Grows(width, |digits| - 1);
    }
  }

  // ---- Identifiers -------------------------------------------------------------------------

  predicate IsHex(text: string) {
    forall i :: 0 <= i < |text| ==> IsHexDigit(text[i])
  }

  predicate IsHexDigit(c: char) {
    '0' <= c <= '9' || 'a' <= c <= 'f'
  }

  function HexValue(c: char): nat
    requires IsHexDigit(c)
  {
    if c <= '9' then c as int - '0' as int else c as int - 'a' as int + 10
  }

  function HexDigit(d: nat): (c: char)
    requires d < 16
    ensures IsHexDigit(c) && HexValue(c) == d
  {
    if d < 10 then ('0' as int + d) as char else ('a' as int + d - 10) as char
  }

  function HexDigits(n: nat, width: nat): (text: string)
    ensures |text| == width && IsHex(text)
    decreases width
  {
    if width == 0 then "" else HexDigits(n / 16, width - 1) + [HexDigit(n % 16)]
  }

  function HexNumber(text: string): nat
    requires IsHex(text)
  {
    if text == "" then 0 else 16 * HexNumber(text[..|text| - 1]) + HexValue(text[|text| - 1])
  }

  function SixteenTo(n: nat): nat {
    if n == 0 then 1 else 16 * SixteenTo(n - 1)
  }

  lemma {:induction false} HexDigitsAreRead(n: nat, width: nat)
    requires n < SixteenTo(width)
    ensures HexNumber(HexDigits(n, width)) == n
    decreases width
  {
    if width > 0 {
      HexDigitsAreRead(n / 16, width - 1);
      var text := HexDigits(n, width);
      assert text[..width - 1] == HexDigits(n / 16, width - 1);
    }
  }

  lemma SixteenTo32()
    ensures SixteenTo(32) == 0x1_0000_0000_0000_0000_0000_0000_0000_0000
  {
    assert SixteenTo(8) == 0x1_0000_0000;
    assert SixteenTo(16) == 0x1_0000_0000_0000_0000;
    assert SixteenTo(24) == 0x1_0000_0000_0000_0000_0000_0000;
  }

  function UuidText(id: Uuid): string {
    var h := HexDigits(id, 32);
    h[..8] + "-" + h[8..12] + ("-" + h[12..16]) + ("-" + h[16..20] + "-" + h[20..])
  }

  function ReadUuid(text: string): Option<Uuid> {
    if |text| != 36 || text[8] != '-' || text[13] != '-' || text[18] != '-' || text[23] != '-' then None
    else
      var h := text[..8] + text[9..13] + text[14..18] + text[19..23] + text[24..];
      if IsHex(h) && HexNumber(h) < 0x1_0000_0000_0000_0000_0000_0000_0000_0000 then Some(HexNumber(h)) else None
  }

  lemma GroupsJoin(a: string, b: string, c: string, d: string, e: string)
    requires |a| == 8 && |b| == 4 && |c| == 4 && |d| == 4 && |e| == 12
    ensures var x := a + "-" + b + ("-" + c) + ("-" + d + "-" + e);
            && |x| == 36 && x[..8] == a && x[9..13] == b && x[14..18] == c && x[19..23] == d && x[24..] == e
            && x[8] == '-' && x[13] == '-' && x[18] == '-' && x[23] == '-'
  {
  }

  lemma UuidsAreRead(id: Uuid)
    ensures ReadUuid(UuidText(id)) == Some(id)
  {
    var h := HexDigits(id, 32);
    GroupsJoin(h[..8], h[8..12], h[12..16], h[16..20], h[20..]);
    assert h == h[..8] + h[8..12] + h[12..16] + h[16..20] + h[20..];
    SixteenTo32();
    HexDigitsAreRead(id, 32);
  }

  lemma HexIsClean(text: string)
    requires IsHex(text)
    ensures Clean(text)
  {
  }

  lemma UuidTextShape(id: Uuid)
    ensures |UuidText(id)| == 36 && Clean(UuidText(id))
  {
    var h := HexDigits(id, 32);
    HexIsClean(h);
    CleanJoins(h[..8], "-");
    CleanJoins(h[..8] + "-", h[8..12]);
    CleanJoins("-", h[12..16]);
    CleanJoins("-", h[16..20]);
    CleanJoins("-" + h[16..20], "-");
    CleanJoins("-" + h[16..20] + "-", h[20..]);
    CleanJoins(h[..8] + "-" + h[8..12], "-" + h[12..16]);
    CleanJoins(h[..8] + "-" + h[8..12] + ("-" + h[12..16]), "-" + h[16..20] + "-" + h[20..]);
  }

  // ---- Dates and instants ------------------------------------------------------------------

  function DateText(d: Date): string {
    LowDigits(d.year, 4) + "-" + LowDigits(d.month, 2) + "-" + LowDigits(d.day, 2)
  }

  function ReadDate(text: string): Option<Date> {
    if |text| != 10 || text[4] != '-' || text[7] != '-' then None
    else match (ReadDigits(text[..4]), ReadDigits(text[5..7]), ReadDigits(text[8..]))
      case (Some(y), Some(m), Some(d)) => if DateValid(Date(y, m, d)) then Some(Date(y, m, d)) else None
      case _ => None
  }

  lemma PowersOfTen()
    ensures Pow10(2) == 100 && Pow10(4) == 10_000 && Pow10(6) == 1_000_000
  {
    assert Pow10(1) == 10 && Pow10(3) == 1000;
  }

  lemma DateTextShape(d: Date)
    ensures |DateText(d)| == 10 && Clean(DateText(d))
  {
    DigitsAreClean(LowDigits(d.year, 4));
    DigitsAreClean(LowDigits(d.month, 2));
    DigitsAreClean(LowDigits(d.day, 2));
  }

  lemma DatesAreRead(d: Date)
    requires DateValid(d)
    ensures ReadDate(DateText(d)) == Some(d)
  {
    PowersOfTen();
    LowDigitsAreRead(d.year, 4);
    LowDigitsAreRead(d.month, 2);
    LowDigitsAreRead(d.day, 2);
    JoinSplits(LowDigits(d.year, 4), "-", LowDigits(d.month, 2), "-", LowDigits(d.day, 2));
    assert DateText(d)[4] == DateText(d)[4..5][0] && DateText(d)[7] == DateText(d)[7..8][0];
  }

  function ClockText(t: DateTime): string {
    LowDigits(t.hour, 2) + ":" + LowDigits(t.minute, 2) + ":" + LowDigits(t.second, 2)
  }

  /** Whole seconds are printed without a fraction. */
  function SubsecondText(t: DateTime): string {
    if t.microsecond == 0 then "" else "." + LowDigits(t.microsecond, 6)
  }

  function DateTimeText(t: DateTime): string {
    DateText(t.date) + "T" + ClockText(t) + SubsecondText(t) + "+00:00"
  }

  function ReadClock(text: string): Option<(nat, nat, nat)> {
    if |text| != 8 || text[2] != ':' || text[5] != ':' then None
    else match (ReadDigits(text[..2]), ReadDigits(text[3..5]), ReadDigits(text[6..]))
      case (Some(h), Some(m), Some(s)) => Some((h, m, s))
      case _ => None
  }

  function ReadSubsecond(text: string): Option<nat> {
    if text == "" then Some(0)
    else if |text| != 7 || text[0] != '.' then None
    else ReadDigits(text[1..])
  }

  function ReadDateTime(text: string): Option<DateTime> {
    if |text| < 25 || text[10] != 'T' || text[|text| - 6..] != "+00:00" then None
    else match (ReadDate(text[..10]), ReadClock(text[11..19]), ReadSubsecond(text[19..|text| - 6]))
      case (Some(d), Some((h, m, s)), Some(f)) =>
        if DateTimeValid(DateTime(d, h, m, s, f)) then Some(DateTime(d, h, m, s, f)) else None
      case _ => None
  }

  lemma ClockTextShape(t: DateTime)
    ensures |ClockText(t)| == 8 && Clean(ClockText(t))
  {
    DigitsAreClean(LowDigits(t.hour, 2));
    DigitsAreClean(LowDigits(t.minute, 2));
    DigitsAreClean(LowDigits(t.second, 2));
  }

  lemma ClocksAreRead(t: DateTime)
    requires DateTimeValid(t)
    ensures ReadClock(ClockText(t)) == Some((t.hour, t.minute, t.second))
  {
    PowersOfTen();
    LowDigitsAreRead(t.hour, 2);
    LowDigitsAreRead(t.minute, 2);
    LowDigitsAreRead(t.second, 2);
    JoinSplits(LowDigits(t.hour, 2), ":", LowDigits(t.minute, 2), ":", LowDigits(t.second, 2));
    assert ClockText(t)[2] == ClockText(t)[2..3][0] && ClockText(t)[5] == ClockText(t)[5..6][0];
  }

  lemma SubsecondsAreRead(t: DateTime)
    requires DateTimeValid(t)
    ensures ReadSubsecond(SubsecondText(t)) == Some(t.microsecond)
  {
    PowersOfTen();
    if t.microsecond != 0 {
      LowDigitsAreRead(t.microsecond, 6);
      assert SubsecondText(t)[1..] == LowDigits(t.microsecond, 6);
    }
  }

  lemma DateTimeTextShape(t: DateTime)
    ensures |DateTimeText(t)| <= 32 && Clean(DateTimeText(t))
  {
    DateTextShape(t.date);
    ClockTextShape(t);
    DigitsAreClean(LowDigits(t.microsecond, 6));
    CleanJoins(DateText(t.date), "T");
    CleanJoins(DateText(t.date) + "T", ClockText(t));
    CleanJoins(".", LowDigits(t.microsecond, 6));
    CleanJoins(DateText(t.date) + "T" + ClockText(t), SubsecondText(t));
    CleanJoins(DateText(t.date) + "T" + ClockText(t) + SubsecondText(t), "+00:00");
  }

  lemma JoinSplits(a: string, b: string, c: string, d: string, e: string)
    ensures var x := a + b + c + d + e;
            && |x| == |a| + |b| + |c| + |d| + |e| && x[..|a|] == a && x[|a|..|a| + |b|] == b
            && x[|a| + |b|..|a| + |b| + |c|] == c && x[|a| + |b| + |c|..|a| + |b| + |c| + |d|] == d
            && x[|a| + |b| + |c| + |d|..] == e
  {
  }

  lemma DateTimesAreRead(t: DateTime)
    requires DateTimeValid(t)
    ensures ReadDateTime(DateTimeText(t)) == Some(t)
  {
    DateTextShape(t.date);
    ClockTextShape(t);
    DatesAreRead(t.date);
    ClocksAreRead(t);
    SubsecondsAreRead(t);
    JoinSplits(DateText(t.date), "T", ClockText(t), SubsecondText(t), "+00:00");
    assert DateTimeText(t)[10] == DateTimeText(t)[10..11][0];
  }

  // ---- The object --------------------------------------------------------------------------

  /** The object that is signed; its version is an integer in every cursor the program makes. */
  datatype Payload = Payload(version: int, scope: string, occurredOn: string, createdAt: string, id: string, expiry: int)

  predicate Plain(p: Payload) {
    Clean(p.createdAt) && Clean(p.id) && Clean(p.occurredOn) && Clean(p.scope)
  }

  /** One member of the object: its key and opening, its value, what ends the value, and the rest. */
  function Field(opening: string, value: string, stop: char, rest: string): string {
    opening + (value + ([stop] + rest))
  }

  /** The compact object text with its keys sorted. */
  function PayloadText(p: Payload): string {
    Field("{\"created_at\":\"", p.createdAt, '"', FromExpiry(p))
  }

  function FromExpiry(p: Payload): string {
    Field(",\"exp\":", IntegerText(p.expiry), ',', FromId(p))
  }

  function FromId(p: Payload): string {
    Field("\"id\":\"", p.id, '"', FromDate(p))
  }

  function FromDate(p: Payload): string {
    Field(",\"occurred_on\":\"", p.occurredOn, '"', FromScope(p))
  }

  function FromScope(p: Payload): string {
    Field(",\"scope\":\"", p.scope, '"', FromVersion(p))
  }

  function FromVersion(p: Payload): string {
    Field(",\"v\":", IntegerText(p.version), '}', "")
  }

  /** The text before and after the first `stop`. */
  function SplitAt(text: string, stop: char): Option<(string, string)> {
    if text == "" then None
    else if text[0] == stop then Some(("", text[1..]))
    else match SplitAt(text[1..], stop)
      case None => None
      case Some((head, tail)) => Some(([text[0]] + head, tail))
  }

  lemma {:induction false} SplitsBack(head: string, stop: char, tail: string)
    requires stop !in head
    ensures SplitAt(head + ([stop] + tail), stop) == Some((head, tail))
  {
    var text := head + ([stop] + tail);
    if head == "" {
      assert text[1..] == tail;
    } else {
      assert text[1..] == head[1..] + ([stop] + tail);
      assert text[0] == head[0] && head[0] in head;
      SplitsBack(head[1..], stop, tail);
      assert [text[0]] + head[1..] == head;
    }
  }

  lemma {:induction false} SplitJoins(text: string, stop: char)
    requires SplitAt(text, stop).Some?
    ensures var (head, tail) := SplitAt(text, stop).value; text == head + ([stop] + tail) && stop !in head
  {
    if text[0] != stop {
      SplitJoins(text[1..], stop);
      assert text == [text[0]] + text[1..];
    }
  }

  function ReadField(opening: string, stop: char, text: string): Option<(string, string)> {
    if |opening| <= |text| && text[..|opening|] == opening then SplitAt(text[|opening|..], stop) else None
  }

  lemma FieldsAreRead(opening: string, value: string, stop: char, rest: string)
    requires stop !in value
    ensures ReadField(opening, stop, Field(opening, value, stop, rest)) == Some((value, rest))
  {
    var text := Field(opening, value, stop, rest);
    assert text[..|opening|] == opening && text[|opening|..] == value + ([stop] + rest);
    SplitsBack(value, stop, rest);
  }

  /** A member whose value is a text that needs no unescaping. */
  function ReadString(opening: string, text: string): Option<(string, string)> {
    match ReadField(opening, '"', text)
    case None => None
    case Some((value, rest)) => if Clean(value) then Some((value, rest)) else None
  }

  function ReadNumber(opening: string, stop: char, text: string): Option<(int, string)> {
    match ReadField(opening, stop, text)
    case None => None
    case Some((value, rest)) => match ReadInteger(value)
      case None => None
      case Some(n) => Some((n, rest))
  }

  lemma StringsAreRead(opening: string, value: string, rest: string)
    requires Clean(value)
    ensures ReadString(opening, Field(opening, value, '"', rest)) == Some((value, rest))
  {
    FieldsAreRead(opening, value, '"', rest);
  }

  lemma NumbersAreRead(opening: string, n: int, stop: char, rest: string)
    requires stop in {',', '}'}
    ensures ReadNumber(opening, stop, Field(opening, IntegerText(n), stop, rest)) == Some((n, rest))
  {
    IntegersAreRead(n);
    FieldsAreRead(opening, IntegerText(n), stop, rest);
  }

  /** Reads the members from the date on: the date, the scope and the version. */
  function ReadPlace(text: string): Option<(string, string, int)> {
    match ReadString(",\"occurred_on\":\"", text)
    case None => None
    case Some((occurredOn, fromScope)) => match ReadString(",\"scope\":\"", fromScope)
      case None => None
      case Some((scope, fromVersion)) => match ReadNumber(",\"v\":", '}', fromVersion)
        case None => None
        case Some((version, rest)) => if rest == "" then Some((occurredOn, scope, version)) else None
  }

  /** Reads an object as the program prints it. */
  function ReadPayload(text: string): Option<Payload> {
    match ReadString("{\"created_at\":\"", text)
    case None => None
    case Some((createdAt, fromExpiry)) => match ReadNumber(",\"exp\":", ',', fromExpiry)
      case None => None
      case Some((expiry, fromId)) => match ReadString("\"id\":\"", fromId)
        case None => None
        case Some((id, fromDate)) => match ReadPlace(fromDate)
          case None => None
          case Some((occurredOn, scope, version)) => Some(Payload(version, scope, occurredOn, createdAt, id, expiry))
  }

  lemma PlacesAreRead(p: Payload)
    requires Plain(p)
    ensures ReadPlace(FromDate(p)) == Some((p.occurredOn, p.scope, p.version))
  {
    StringsAreRead(",\"occurred_on\":\"", p.occurredOn, FromScope(p));
    StringsAreRead(",\"scope\":\"", p.scope, FromVersion(p));
    NumbersAreRead(",\"v\":", p.version, '}', "");
  }

  /** Printing then reading an object gives it back. */
  lemma PayloadsAreRead(p: Payload)
    requires Plain(p)
    ensures ReadPayload(PayloadText(p)) == Some(p)
  {
    StringsAreRead("{\"created_at\":\"", p.createdAt, FromExpiry(p));
    NumbersAreRead(",\"exp\":", p.expiry, ',', FromId(p));
    StringsAreRead("\"id\":\"", p.id, FromDate(p));
    PlacesAreRead(p);
  }

  /** An object text is the text of one payload only. */
  lemma PayloadTextsAreUnique(p: Payload, q: Payload)
    requires Plain(p) && Plain(q) && PayloadText(p) == PayloadText(q)
    ensures p == q
  {
    PayloadsAreRead(p);
    PayloadsAreRead(q);
  }
}
