/** The page cursor: a timestamp in ISO form and a comment id, joined by '|' and encoded as
    base64url. Decoding undoes encoding for every timezone-aware timestamp and every id. */
module Cursor {
  import opened Prelude
  import opened CursorText

  /** `offset` is the UTC offset in microseconds, None for a naive timestamp. */
  datatype Clock = Clock(hour: nat, minute: nat, second: nat, microsecond: nat)
  datatype Date = Date(year: nat, month: nat, day: nat)
  datatype Stamp = Stamp(date: Date, clock: Clock, offset: Option<int>)

  const DAY_MICROSECONDS: int := 86_400_000_000

  predicate IsLeap(year: nat) {
    year % 4 == 0 && (year % 100 != 0 || year % 400 == 0)
  }

  function DaysIn(year: nat, month: nat): nat {
    if month == 2 then if IsLeap(year) then 29 else 28
    else if month in {4, 6, 9, 11} then 30 else 31
  }

  predicate ValidDate(d: Date) {
    1 <= d.year <= 9999 && 1 <= d.month <= 12 && 1 <= d.day <= DaysIn(d.year, d.month)
  }

  predicate ValidClock(c: Clock) {
    c.hour < 24 && c.minute < 60 && c.second < 60 && c.microsecond < 1_000_000
  }

  predicate ValidOffset(offset: Option<int>) {
    offset.Some? ==> -DAY_MICROSECONDS < offset.value < DAY_MICROSECONDS
  }

  predicate ValidStamp(s: Stamp) {
    ValidDate(s.date) && ValidClock(s.clock) && ValidOffset(s.offset)
  }

  type DateTime = s: Stamp | ValidStamp(s) witness Stamp(Date(1, 1, 1), Clock(0, 0, 0, 0), None)
  type Uuid = n: nat | n < 0x1_0000_0000_0000_0000_0000_0000_0000_0000 witness 0

  // ----- printing -----

  function DateText(d: Date): string {
    Printed(d.year, Decimal, 4) + ['-'] + Printed(d.month, Decimal, 2) + ['-'] + Printed(d.day, Decimal, 2)
  }

  function MinuteText(c: Clock): string {
    Printed(c.hour, Decimal, 2) + [':'] + Printed(c.minute, Decimal, 2)
  }

  function SecondText(c: Clock): string {
    MinuteText(c) + [':'] + Printed(c.second, Decimal, 2)
  }

  function FractionText(c: Clock): string {
    SecondText(c) + ['.'] + Printed(c.microsecond, Decimal, 6)
  }

  /** A time of day always shows its seconds; a zero fraction is left out. */
  function ClockText(c: Clock): string {
    if c.microsecond == 0 then SecondText(c) else FractionText(c)
  }

  /** The magnitude of an offset, read as a time of day. */
  function Magnitude(offset: int): Clock {
    var total: nat := if offset < 0 then -offset else offset;
    Clock(total / 3_600_000_000, total / 60_000_000 % 60, total / 1_000_000 % 60, total % 1_000_000)
  }

  /** An offset shows its seconds, and its fraction, only when they are not zero. */
  function OffsetText(offset: int): string {
    var m := Magnitude(offset);
    [if offset < 0 then '-' else '+'] +
    (if m.microsecond != 0 then FractionText(m) else if m.second != 0 then SecondText(m) else MinuteText(m))
  }

  function IsoFormat(s: Stamp): string {
    DateText(s.date) + ['T'] + ClockText(s.clock) +
    (match s.offset case None => "" case Some(offset) => OffsetText(offset))
  }

  /** Groups of 8, 4, 4, 4 and 12 hexadecimal digits. */
  function UuidText(id: nat): string {
    Hyphenated(Printed(id, Hexadecimal, 32))
  }

  function Hyphenated(hex: string): string
    requires |hex| == 32
  {
    hex[..8] + ['-'] + (hex[8..12] + ['-'] + (hex[12..16] + ['-'] + (hex[16..20] + ['-'] + hex[20..])))
  }

  /** Code points below 256 become bytes; the texts printed above are ASCII. */
  function Bytes(text: string): (data: seq<byte>)
    requires IsAscii(text)
  {
    seq(|text|, i requires 0 <= i < |text| => text[i] as int)
  }

  predicate IsAscii(text: string) {
    forall i | 0 <= i < |text| :: text[i] < 128 as char
  }

  // ----- parsing -----

  function ParseDate(text: string): Option<Date> {
    if |text| != 10 || text[4] != '-' || text[7] != '-' then None
    else match (Number(text[..4], Decimal), Number(text[5..7], Decimal), Number(text[8..], Decimal))
      case (Some(year), Some(month), Some(day)) => Some(Date(year, month, day))
      case _ => None
  }

  /** HH[:MM[:SS[.fff[fff]]]] */
  function ParseClock(text: string): Option<Clock> {
    if |text| !in {2, 5, 8, 12, 15} || (|text| > 2 && text[2] != ':') || (|text| > 5 && text[5] != ':')
       || (|text| > 8 && text[8] != '.')
    then None
    else match (Number(text[..2], Decimal),
                if |text| > 2 then Number(text[3..5], Decimal) else Some(0),
                if |text| > 5 then Number(text[6..8], Decimal) else Some(0),
                if |text| > 8 then Number(text[9..], Decimal) else Some(0))
      case (Some(h), Some(m), Some(s), Some(f)) => Some(Clock(h, m, s, if |text| == 12 then f * 1000 else f))
      case _ => None
  }

  function Microseconds(c: Clock): nat {
    c.hour * 3_600_000_000 + c.minute * 60_000_000 + c.second * 1_000_000 + c.microsecond
  }

  /** A sign, then HH:MM[:SS[.ffffff]]; the empty text means no offset. */
  function ParseOffset(text: string): Option<Option<int>> {
    if text == "" then Some(None)
    else if |text| !in {6, 9, 16} then None
    else match ParseClock(text[1..])
      case None => None
      case Some(m) =>
        var size: int := Microseconds(m);
        Some(Some(if text[0] == '-' then -size else size))
  }

  /** The library's reader: any one character may separate date and time, the offset starts at the
      first sign after it, and the fields must make a real date, time and offset. */
  function FromIsoFormat(text: string): Option<DateTime> {
    if |text| < 10 then None
    else
      var rest := if |text| == 10 then "00" else text[11..];
      var sign := First(rest, ['+', '-']);
      match (ParseDate(text[..10]), ParseClock(rest[..sign]), ParseOffset(rest[sign..]))
      case (Some(date), Some(clock), Some(offset)) =>
        var s := Stamp(date, clock, offset);
        if ValidStamp(s) then Some(s) else None
      case _ => None
  }

  function DropBraces(text: string): string {
    if text != "" && text[0] in ['{', '}'] then DropBraces(text[1..])
    else if text != "" && text[|text| - 1] in ['{', '}'] then DropBraces(text[..|text| - 1])
    else text
  }

  /** URN prefixes, surrounding braces and all hyphens are dropped; 32 digits must remain. */
  function ParseUuid(text: string): Option<Uuid> {
    var plain := Without(Without(text, ['u', 'r', 'n', ':']), ['u', 'u', 'i', 'd', ':']);
    var hex := Without(DropBraces(plain), ['-']);
    if |hex| != 32 || Number(hex, Hexadecimal).None? then None
    else
      NumberIsBounded(hex, Hexadecimal);
      SixteenToThe32nd();
      Some(Number(hex, Hexadecimal).value)
  }

  /** ASCII text only: no timestamp or id the service prints holds anything else. */
  function Text(data: seq<byte>): Option<string> {
    if exists b | b in data :: b >= 128 then None
    else Some(seq(|data|, i requires 0 <= i < |data| => data[i] as char))
  }

  // ----- the two service functions -----

  datatype CursorError = InvalidCursor

  function RawText(createdAt: DateTime, id: Uuid): string {
    IsoFormat(createdAt) + ['|'] + UuidText(id)
  }

  function EncodeCursor(createdAt: DateTime, id: Uuid): string {
    RawIsAscii(createdAt, id);
    Encoded(Bytes(RawText(createdAt, id)))
  }

  function DecodeCursor(cursor: string): Result<(DateTime, Uuid), CursorError> {
    match Decoded(cursor)
    case None => Err(InvalidCursor)
    case Some(data) =>
      match Text(data)
      case None => Err(InvalidCursor)
      case Some(raw) =>
        var bar := First(raw, ['|']);
        if bar == |raw| then Err(InvalidCursor)
        else
          match (FromIsoFormat(raw[..bar]), ParseUuid(raw[bar + 1..]))
          case (Some(createdAt), Some(id)) =>
            if createdAt.offset.None? then Err(InvalidCursor) else Ok((createdAt, id))
          case _ => Err(InvalidCursor)
  }

  // ----- reading back each part -----

  /** Characters the printers use: digits and the separators of the ISO form. */
  predicate IsIsoChar(c: char) {
    IsDigit(c) || c in ['-', ':', '.', 'T', '+']
  }

  lemma ClockTextIsPlain(c: Clock)
    ensures forall x | x in FractionText(c) :: IsDigit(x) || x == ':' || x == '.'
    ensures forall x | x in SecondText(c) :: IsDigit(x) || x == ':'
    ensures forall x | x in MinuteText(c) :: IsDigit(x) || x == ':'
  {}

  lemma IsoIsPlain(s: Stamp)
    ensures forall c | c in IsoFormat(s) :: IsIsoChar(c)
  {
    ClockTextIsPlain(s.clock);
    if s.offset.Some? {
      ClockTextIsPlain(Magnitude(s.offset.value));
      assert forall c | c in OffsetText(s.offset.value) :: IsIsoChar(c);
    }
    assert forall c | c in DateText(s.date) :: IsIsoChar(c);
  }

  lemma UuidIsPlain(id: nat)
    ensures forall c | c in UuidText(id) :: IsDigit(c) || c == '-'
  {
    var hex := Printed(id, Hexadecimal, 32);
    assert forall i | 0 <= i < 32 :: hex[i] in hex;
  }

  lemma RawIsAscii(createdAt: DateTime, id: Uuid)
    ensures IsAscii(RawText(createdAt, id))
  {
    IsoIsPlain(createdAt);
    UuidIsPlain(id);
    var raw := RawText(createdAt, id);
    forall i | 0 <= i < |raw| ensures raw[i] < 128 as char {
      assert raw[i] in IsoFormat(createdAt) || raw[i] == '|' || raw[i] in UuidText(id);
    }
  }

  lemma DateReadsBack(d: Date)
    requires ValidDate(d)
    ensures ParseDate(DateText(d)) == Some(d)
  {
    var year, month, day := Printed(d.year, Decimal, 4), Printed(d.month, Decimal, 2), Printed(d.day, Decimal, 2);
    var text := DateText(d);
    assert text[..4] == year && text[4] == '-' && text[5..7] == month && text[7] == '-' && text[8..] == day;
    assert Power(Decimal, 2) == 100 && Power(Decimal, 4) == 10_000;
    NumberReadsPrinted(d.year, Decimal, 4);
    NumberReadsPrinted(d.month, Decimal, 2);
    NumberReadsPrinted(d.day, Decimal, 2);
  }

  lemma ClockFieldsReadBack(c: Clock)
    requires ValidClock(c)
    ensures Number(Printed(c.hour, Decimal, 2), Decimal) == Some(c.hour)
    ensures Number(Printed(c.minute, Decimal, 2), Decimal) == Some(c.minute)
    ensures Number(Printed(c.second, Decimal, 2), Decimal) == Some(c.second)
    ensures Number(Printed(c.microsecond, Decimal, 6), Decimal) == Some(c.microsecond)
  {
    assert Power(Decimal, 2) == 100;
    assert Power(Decimal, 6) == 10_000 * Power(Decimal, 2);
    NumberReadsPrinted(c.hour, Decimal, 2);
    NumberReadsPrinted(c.minute, Decimal, 2);
    NumberReadsPrinted(c.second, Decimal, 2);
    NumberReadsPrinted(c.microsecond, Decimal, 6);
  }

  lemma FractionReadsBack(c: Clock)
    requires ValidClock(c)
    ensures ParseClock(FractionText(c)) == Some(c)
  {
    ClockFieldsReadBack(c);
    var f := FractionText(c);
    assert f[..2] == Printed(c.hour, Decimal, 2) && f[2] == ':' && f[3..5] == Printed(c.minute, Decimal, 2);
    assert f[5] == ':' && f[6..8] == Printed(c.second, Decimal, 2);
    assert f[8] == '.' && f[9..] == Printed(c.microsecond, Decimal, 6);
  }

  lemma SecondReadsBack(c: Clock)
    requires ValidClock(c) && c.microsecond == 0
    ensures ParseClock(SecondText(c)) == Some(c)
  {
    ClockFieldsReadBack(c);
    var s := SecondText(c);
    assert s[..2] == Printed(c.hour, Decimal, 2) && s[2] == ':' && s[3..5] == Printed(c.minute, Decimal, 2);
    assert s[5] == ':' && s[6..8] == Printed(c.second, Decimal, 2);
  }

  lemma MinuteReadsBack(c: Clock)
    requires ValidClock(c) && c.microsecond == 0 && c.second == 0
    ensures ParseClock(MinuteText(c)) == Some(c)
  {
    ClockFieldsReadBack(c);
    var m := MinuteText(c);
    assert m[..2] == Printed(c.hour, Decimal, 2) && m[2] == ':' && m[3..5] == Printed(c.minute, Decimal, 2);
  }

  /** Each of the three printed forms of a clock, when the fields it drops are zero. */
  lemma ClockReadsBack(c: Clock)
    requires ValidClock(c)
    ensures ParseClock(FractionText(c)) == Some(c)
    ensures c.microsecond == 0 ==> ParseClock(SecondText(c)) == Some(c)
    ensures c.microsecond == 0 && c.second == 0 ==> ParseClock(MinuteText(c)) == Some(c)
  {
    FractionReadsBack(c);
    if c.microsecond == 0 {
      SecondReadsBack(c);
      if c.second == 0 {
        MinuteReadsBack(c);
      }
    }
  }

  lemma MagnitudeIsATimeOfDay(offset: int)
    requires -DAY_MICROSECONDS < offset < DAY_MICROSECONDS
    ensures ValidClock(Magnitude(offset))
    ensures Microseconds(Magnitude(offset)) == if offset < 0 then -offset else offset
  {
    var total: nat := if offset < 0 then -offset else offset;
    var seconds, minutes := total / 1_000_000, total / 60_000_000;
    assert minutes == seconds / 60 && total / 3_600_000_000 == minutes / 60;
  }

  lemma SignedReadsBack(offset: int, body: string)
    requires ParseClock(body) == Some(Magnitude(offset)) && |body| in {5, 8, 15}
    requires -DAY_MICROSECONDS < offset < DAY_MICROSECONDS
    ensures ParseOffset([if offset < 0 then '-' else '+'] + body) == Some(Some(offset))
  {
    MagnitudeIsATimeOfDay(offset);
    assert ([if offset < 0 then '-' else '+'] + body)[1..] == body;
  }

  lemma OffsetReadsBack(offset: int)
    requires -DAY_MICROSECONDS < offset < DAY_MICROSECONDS
    ensures ParseOffset(OffsetText(offset)) == Some(Some(offset))
  {
    MagnitudeIsATimeOfDay(offset);
    var m := Magnitude(offset);
    ClockReadsBack(m);
    SignedReadsBack(offset,
      if m.microsecond != 0 then FractionText(m) else if m.second != 0 then SecondText(m) else MinuteText(m));
  }

  lemma IsoPartsReadBack(s: DateTime, date: string, clock: string, tail: string)
    requires |date| == 10 && ParseDate(date) == Some(s.date)
    requires ParseClock(clock) == Some(s.clock) && ParseOffset(tail) == Some(s.offset)
    requires forall i | 0 <= i < |clock| :: clock[i] !in ['+', '-']
    requires tail == "" || tail[0] in ['+', '-']
    ensures FromIsoFormat(date + ['T'] + clock + tail) == Some(s)
  {
    var text, rest := date + ['T'] + clock + tail, clock + tail;
    assert clock != "";
    assert text[..10] == date && text[11..] == rest;
    FirstAfterPrefix(clock, tail, ['+', '-']);
    assert rest[..|clock|] == clock && rest[|clock|..] == tail;
  }

  /** Reading an ISO timestamp gives back the very fields printed, with or without a fraction of a
      second, and with or without an offset. */
  lemma IsoRoundTrip(s: DateTime)
    ensures FromIsoFormat(IsoFormat(s)) == Some(s)
  {
    DateReadsBack(s.date);
    ClockReadsBack(s.clock);
    ClockTextIsPlain(s.clock);
    var clock := ClockText(s.clock);
    assert forall i | 0 <= i < |clock| :: clock[i] in clock;
    var tail := match s.offset case None => "" case Some(offset) => OffsetText(offset);
    if s.offset.Some? {
      OffsetReadsBack(s.offset.value);
    }
    IsoPartsReadBack(s, DateText(s.date), clock, tail);
  }

  lemma HyphensGo(a: string, b: string)
    requires '-' !in a
    ensures Without(a + ['-'] + b, ['-']) == a + Without(b, ['-'])
  {
    assert a + ['-'] + b == a + (['-'] + b);
    WithoutConcat(a, ['-'] + b, '-');
    WithoutAbsent(a, ['-']);
    assert (['-'] + b)[..1] == ['-'] && (['-'] + b)[1..] == b;
  }

  lemma UuidHyphensGo(hex: string)
    requires |hex| == 32 && '-' !in hex
    ensures Without(Hyphenated(hex), ['-']) == hex
  {
    var e := hex[20..];
    var d := hex[16..20] + ['-'] + e;
    var c := hex[12..16] + ['-'] + d;
    var b := hex[8..12] + ['-'] + c;
    HyphensGo(hex[..8], b);
    HyphensGo(hex[8..12], c);
    HyphensGo(hex[12..16], d);
    HyphensGo(hex[16..20], e);
    WithoutAbsent(e, ['-']);
    assert hex == hex[..8] + (hex[8..12] + (hex[12..16] + (hex[16..20] + e)));
  }

  lemma SixteenToThe32nd()
    ensures Power(Hexadecimal, 32) == 0x1_0000_0000_0000_0000_0000_0000_0000_0000
  {
    assert Power(Hexadecimal, 8) == 0x1_0000_0000;
    assert Power(Hexadecimal, 16) == 0x1_0000_0000_0000_0000;
    assert Power(Hexadecimal, 24) == 0x1_0000_0000_0000_0000_0000_0000;
  }

  /** Prefixes and braces are looked for in vain. */
  lemma NothingToDrop(text: string)
    requires text != "" && forall c | c in text :: IsDigit(c) || c == '-'
    ensures DropBraces(Without(Without(text, ['u', 'r', 'n', ':']), ['u', 'u', 'i', 'd', ':'])) == text
  {
    WithoutAbsent(text, ['u', 'r', 'n', ':']);
    WithoutAbsent(text, ['u', 'u', 'i', 'd', ':']);
    assert text[0] in text && text[|text| - 1] in text;
  }

  lemma UuidRoundTrip(id: Uuid)
    ensures ParseUuid(UuidText(id)) == Some(id)
  {
    UuidIsPlain(id);
    NothingToDrop(UuidText(id));
    UuidHyphensGo(Printed(id, Hexadecimal, 32));
    SixteenToThe32nd();
    NumberReadsPrinted(id, Hexadecimal, 32);
  }

  lemma TextReadsBytes(text: string)
    requires IsAscii(text)
    ensures Text(Bytes(text)) == Some(text)
  {
    var data := Bytes(text);
    assert forall b | b in data :: b < 128;
    assert Text(data).value == text;
  }

  lemma BarSplits(createdAt: DateTime, tail: string)
    ensures var iso, raw := IsoFormat(createdAt), IsoFormat(createdAt) + ['|'] + tail;
            First(raw, ['|']) == |iso| < |raw| && raw[..|iso|] == iso && raw[|iso| + 1..] == tail
  {
    var iso, raw := IsoFormat(createdAt), IsoFormat(createdAt) + ['|'] + tail;
    IsoIsPlain(createdAt);
    assert forall i | 0 <= i < |iso| :: iso[i] in iso;
    assert raw == iso + (['|'] + tail);
    FirstAfterPrefix(iso, ['|'] + tail, ['|']);
  }

  /** The cursor law: decoding returns the timestamp and the id that were encoded, field by field,
      exactly when the timestamp carries an offset; a naive one is refused. */
  lemma CursorRoundTrip(createdAt: DateTime, id: Uuid)
    ensures DecodeCursor(EncodeCursor(createdAt, id)) ==
            if createdAt.offset.Some? then Ok((createdAt, id)) else Err(InvalidCursor)
  {
    var raw := RawText(createdAt, id);
    RawIsAscii(createdAt, id);
    Base64RoundTrip(Bytes(raw));
    TextReadsBytes(raw);
    BarSplits(createdAt, UuidText(id));
    IsoRoundTrip(createdAt);
    UuidRoundTrip(id);
  }

  /** Two pages never share a cursor unless they end at the same comment. */
  lemma CursorsAreDistinct(a: DateTime, idA: Uuid, b: DateTime, idB: Uuid)
    requires a.offset.Some? && b.offset.Some?
    ensures EncodeCursor(a, idA) == EncodeCursor(b, idB) <==> a == b && idA == idB
  {
    CursorRoundTrip(a, idA);
    CursorRoundTrip(b, idB);
  }
}
