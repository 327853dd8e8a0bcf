/** What the cursor's readers accept, and nothing more: dates, clocks and offsets only in the forms that
    are printed, and base64 only when its last quad is complete. */
module CursorReading {
  import opened Prelude
  import opened CursorText
  import opened Cursor

  // ----- numbers -----

  lemma {:induction false} DecimalReadsOnlyItsDigits(text: string)
    requires Number(text, Decimal).Some?
    ensures Printed(Number(text, Decimal).value, Decimal, |text|) == text
  {
    if text != "" {
      var front, last := text[..|text| - 1], text[|text| - 1];
      DecimalReadsOnlyItsDigits(front);
      assert text == front + [last];
      LastDigitIsPrinted(Number(front, Decimal).value, last);
    }
  }

  lemma LastDigitIsPrinted(high: nat, last: char)
    requires Appended(Some(high), last, Decimal).Some?
    ensures var value := Appended(Some(high), last, Decimal).value;
            Quotient(value, Decimal) == high && DigitOf(Remainder(value, Decimal)) == last
  {}

  // ----- dates and clocks -----

  /** A date is read from the ten characters that print it and from no others. */
  lemma DateIsReadIff(text: string, d: Date)
    requires ValidDate(d)
    ensures ParseDate(text) == Some(d) <==> text == DateText(d)
  {
    DateReadsBack(d);
    if ParseDate(text) == Some(d) {
      DecimalReadsOnlyItsDigits(text[..4]);
      DecimalReadsOnlyItsDigits(text[5..7]);
      DecimalReadsOnlyItsDigits(text[8..]);
      assert text == text[..4] + [text[4]] + text[5..7] + [text[7]] + text[8..];
    }
  }

  function HourText(c: Clock): string {
    Printed(c.hour, Decimal, 2)
  }

  /** Three digits of fraction, as milliseconds. */
  function MillisecondText(c: Clock): string {
    SecondText(c) + ['.'] + Printed(c.microsecond / 1000, Decimal, 3)
  }

  /** A clock shows its hour; its minute; its second; and milliseconds or microseconds, each only behind
      the one before, and what is not shown is zero. */
  predicate Shows(text: string, c: Clock) {
    || (text == HourText(c) && c.minute == 0 && c.second == 0 && c.microsecond == 0)
    || (text == MinuteText(c) && c.second == 0 && c.microsecond == 0)
    || (text == SecondText(c) && c.microsecond == 0)
    || (text == MillisecondText(c) && c.microsecond % 1000 == 0)
    || text == FractionText(c)
  }

  /** The field at `from` of a text that has one. */
  lemma FieldIsShown(text: string, from: nat, to: nat, value: nat)
    requires from <= to <= |text| && Number(text[from..to], Decimal) == Some(value)
    ensures text[from..to] == Printed(value, Decimal, to - from)
  {
    DecimalReadsOnlyItsDigits(text[from..to]);
  }

  lemma MinutesAreShown(text: string, c: Clock)
    requires ParseClock(text) == Some(c) && |text| >= 5
    ensures text[..5] == MinuteText(c)
  {
    FieldIsShown(text, 0, 2, c.hour);
    FieldIsShown(text, 3, 5, c.minute);
    assert text[..5] == text[0..2] + [text[2]] + text[3..5];
  }

  lemma SecondsAreShown(text: string, c: Clock)
    requires ParseClock(text) == Some(c) && |text| >= 8
    ensures text[..8] == SecondText(c)
  {
    MinutesAreShown(text, c);
    FieldIsShown(text, 6, 8, c.second);
    assert text[..8] == text[..5] + [text[5]] + text[6..8];
  }

  lemma FractionIsShown(text: string, c: Clock)
    requires ParseClock(text) == Some(c) && |text| in {12, 15}
    ensures text == (if |text| == 15 then FractionText(c) else MillisecondText(c))
    ensures |text| == 12 ==> c.microsecond % 1000 == 0
  {
    SecondsAreShown(text, c);
    assert text[9..|text|] == text[9..];
    FieldIsShown(text, 9, |text|, if |text| == 12 then c.microsecond / 1000 else c.microsecond);
    assert text == text[..8] + [text[8]] + text[9..];
  }

  lemma HourIsShown(text: string, c: Clock)
    requires ParseClock(text) == Some(c) && |text| == 2
    ensures text == HourText(c) && c.minute == 0 && c.second == 0 && c.microsecond == 0
  {
    assert text[..2] == text;
    FieldIsShown(text, 0, 2, c.hour);
  }

  lemma ClockIsShown(text: string, c: Clock)
    requires ParseClock(text) == Some(c)
    ensures Shows(text, c)
  {
    if |text| == 2 {
      HourIsShown(text, c);
    } else if |text| == 5 {
      MinutesAreShown(text, c);
      assert text[..5] == text;
    } else if |text| == 8 {
      SecondsAreShown(text, c);
      assert text[..8] == text;
    } else {
      FractionIsShown(text, c);
    }
  }

  /** An offset is a sign and a clock that shows its minutes, and no milliseconds. */
  lemma OffsetIsShown(text: string, offset: int)
    requires ParseOffset(text) == Some(Some(offset))
    ensures |text| in {6, 9, 16}
    ensures exists c :: Shows(text[1..], c) && offset == Microseconds(c) * if text[0] == '-' then -1 else 1
  {
    var c := ParseClock(text[1..]).value;
    ClockIsShown(text[1..], c);
  }

  /** A timestamp is read only from a date, any one character, a clock, and an offset or nothing; the date
      alone is midnight without an offset. */
  lemma TimestampIsShown(text: string, s: DateTime)
    requires FromIsoFormat(text) == Some(s)
    ensures |text| >= 10 && text[..10] == DateText(s.date)
    ensures |text| == 10 ==> s.clock == Clock(0, 0, 0, 0) && s.offset == None
    ensures |text| > 10 ==>
              exists n :: 0 <= n <= |text| - 11 && Shows(text[11..][..n], s.clock)
                          && (if n == |text| - 11 then s.offset == None
                              else text[11 + n] in ['+', '-'] && ParseOffset(text[11..][n..]) == Some(s.offset))
  {
    DateIsReadIff(text[..10], s.date);
    if |text| == 10 {
      MidnightIsRead(s.clock);
    } else {
      var rest := text[11..];
      var n := First(rest, ['+', '-']);
      ClockIsShown(rest[..n], s.clock);
      assert rest[n..] == "" <==> n == |rest|;
      assert 0 <= n <= |text| - 11 && Shows(text[11..][..n], s.clock);
    }
  }

  lemma MidnightIsRead(c: Clock)
    requires ParseClock("00"[..First("00", ['+', '-'])]) == Some(c)
    ensures c == Clock(0, 0, 0, 0) && "00"[First("00", ['+', '-'])..] == ""
  {
    var text: string := ['0', '0'];
    assert text == "00" && First(text, ['+', '-']) == 2 && text[..2] == text;
    assert text[..1] == ['0'] && ['0'][..0] == "";
    assert Number(text, Decimal) == Some(0);
  }

  // ----- ids -----

  function Lower(text: string): string {
    if text == "" then ""
    else
      var last := text[|text| - 1];
      Lower(text[..|text| - 1]) + [if 'A' <= last <= 'F' then last - 'A' + 'a' else last]
  }

  lemma {:induction false} HexReadsItsDigitsInEitherCase(text: string)
    requires Number(text, Hexadecimal).Some?
    ensures Printed(Number(text, Hexadecimal).value, Hexadecimal, |text|) == Lower(text)
  {
    if text != "" {
      var front, last := text[..|text| - 1], text[|text| - 1];
      HexReadsItsDigitsInEitherCase(front);
      LastHexDigit(Number(front, Hexadecimal).value, last);
    }
  }

  lemma LastHexDigit(high: nat, last: char)
    requires Appended(Some(high), last, Hexadecimal).Some?
    ensures var value := Appended(Some(high), last, Hexadecimal).value;
            && Quotient(value, Hexadecimal) == high
            && DigitOf(Remainder(value, Hexadecimal)) == if 'A' <= last <= 'F' then last - 'A' + 'a' else last
  {}

  /** An id is read only from its 32 hexadecimal digits, in either case, once prefixes, braces and
      hyphens are gone. */
  lemma UuidIsShown(text: string, id: Uuid)
    requires ParseUuid(text) == Some(id)
    ensures var plain := Without(Without(text, ['u', 'r', 'n', ':']), ['u', 'u', 'i', 'd', ':']);
            Lower(Without(DropBraces(plain), ['-'])) == Printed(id, Hexadecimal, 32)
  {
    var plain := Without(Without(text, ['u', 'r', 'n', ':']), ['u', 'u', 'i', 'd', ':']);
    HexReadsItsDigitsInEitherCase(Without(DropBraces(plain), ['-']));
  }

  /** Braces around an id, or the prefix of a URN before it, make no difference. */
  lemma WrappedUuidIsRead(id: Uuid)
    ensures ParseUuid(['{'] + UuidText(id) + ['}']) == Some(id)
    ensures ParseUuid(['u', 'r', 'n', ':', 'u', 'u', 'i', 'd', ':'] + UuidText(id)) == Some(id)
  {
    var text := UuidText(id);
    UuidIsPlain(id);
    UuidRoundTrip(id);
    NothingToDrop(text);
    WithoutAbsent(text, ['u', 'r', 'n', ':']);
    WithoutAbsent(text, ['u', 'u', 'i', 'd', ':']);
    BracesGo(text);
    UrnGoes(text);
  }

  lemma BracesGo(text: string)
    requires text != "" && forall c | c in text :: IsDigit(c) || c == '-'
    ensures var braced := ['{'] + text + ['}'];
            DropBraces(Without(Without(braced, ['u', 'r', 'n', ':']), ['u', 'u', 'i', 'd', ':'])) == text
  {
    var braced := ['{'] + text + ['}'];
    assert forall c | c in braced :: c in text || c == '{' || c == '}';
    WithoutAbsent(braced, ['u', 'r', 'n', ':']);
    WithoutAbsent(braced, ['u', 'u', 'i', 'd', ':']);
    OuterBracesGo(text);
  }

  lemma OuterBracesGo(text: string)
    requires text != "" && forall c | c in text :: IsDigit(c) || c == '-'
    ensures DropBraces(['{'] + text + ['}']) == text
  {
    var braced, tail := ['{'] + text + ['}'], text + ['}'];
    assert braced[0] == '{' && braced[1..] == tail;
    LastBraceGoes(text);
  }

  lemma LastBraceGoes(text: string)
    requires text != "" && forall c | c in text :: IsDigit(c) || c == '-'
    ensures DropBraces(text + ['}']) == text
  {
    var tail := text + ['}'];
    assert text[0] in text && text[|text| - 1] in text;
    assert tail[0] == text[0] && tail[..|tail| - 1] == text && tail[|tail| - 1] == '}';
  }

  lemma UrnGoes(text: string)
    requires text != "" && forall c | c in text :: IsDigit(c) || c == '-'
    ensures var urn := ['u', 'r', 'n', ':', 'u', 'u', 'i', 'd', ':'] + text;
            Without(Without(urn, ['u', 'r', 'n', ':']), ['u', 'u', 'i', 'd', ':']) == text
  {
    var urn := ['u', 'r', 'n', ':', 'u', 'u', 'i', 'd', ':'] + text;
    var uuid := ['u', 'u', 'i', 'd', ':'] + text;
    assert urn[..4] == ['u', 'r', 'n', ':'] && urn[4..] == uuid;
    NoUrnInside(text);
    assert uuid[..5] == ['u', 'u', 'i', 'd', ':'] && uuid[5..] == text;
    WithoutAbsent(text, ['u', 'u', 'i', 'd', ':']);
  }

  lemma NoUrnInside(text: string)
    requires text != "" && forall c | c in text :: IsDigit(c) || c == '-'
    ensures Without(['u', 'u', 'i', 'd', ':'] + text, ['u', 'r', 'n', ':']) == ['u', 'u', 'i', 'd', ':'] + text
  {
    var rest := ['i', 'd', ':'] + text;
    NothingLikeUrn(text);
    NoUrnAt(rest);
    NoUrnAt(['u'] + rest);
    Regrouped(text);
  }

  lemma NothingLikeUrn(text: string)
    requires forall c | c in text :: IsDigit(c) || c == '-'
    ensures Without(['i', 'd', ':'] + text, ['u', 'r', 'n', ':']) == ['i', 'd', ':'] + text
  {
    assert forall c | c in ['i', 'd', ':'] + text :: c in text || c in ['i', 'd', ':'];
    WithoutAbsent(['i', 'd', ':'] + text, ['u', 'r', 'n', ':']);
  }

  lemma Regrouped(text: string)
    ensures ['u', 'u', 'i', 'd', ':'] + text == ['u'] + (['u'] + (['i', 'd', ':'] + text))
  {}

  lemma NoUrnAt(rest: string)
    requires |rest| >= 3 && rest[0] != 'r' && Without(rest, ['u', 'r', 'n', ':']) == rest
    ensures Without(['u'] + rest, ['u', 'r', 'n', ':']) == ['u'] + rest
  {
    var all := ['u'] + rest;
    assert all[..4][1] == rest[0] && all[1..] == rest;
  }

  // ----- base64 -----

  /** The same bits in the alphabet of plain base64. */
  function Standard(text: string): string {
    if text == "" then ""
    else [if text[0] == '-' then '+' else if text[0] == '_' then '/' else text[0]] + Standard(text[1..])
  }

  /** Both alphabets of base64 are read, and mean the same. */
  lemma {:induction false} EitherAlphabetIsRead(text: string, quad: nat, left: nat, pads: nat)
    requires quad < 4
    requires left < (if quad == 0 then 1 else if quad == 1 then 64 else if quad == 2 then 16 else 4)
    ensures Scanned(Standard(text), quad, left, pads) == Scanned(text, quad, left, pads)
    decreases |text|
  {
    if text != "" {
      var rest := text[1..];
      assert Standard(text)[1..] == Standard(rest) && Sextet(Standard(text)[0]) == Sextet(text[0]);
      if text[0] == '=' {
        EitherAlphabetIsRead(rest, quad, left, pads);
        EitherAlphabetIsRead(rest, quad, left, pads + 1);
      } else if Sextet(text[0]).None? {
        EitherAlphabetIsRead(rest, quad, left, pads);
      } else {
        var bits := Sextet(text[0]).value;
        EitherAlphabetIsRead(rest, NextQuad(quad),
          if quad == 0 then bits else if quad == 1 then bits % 16 else if quad == 2 then bits % 4 else 0, 0);
      }
    }
  }

  /** Characters of neither alphabet, padding apart, are skipped wherever they stand. */
  lemma {:induction false} JunkIsSkipped(a: string, junk: char, b: string, quad: nat, left: nat, pads: nat)
    requires Sextet(junk).None? && junk != '=' && quad < 4
    requires left < (if quad == 0 then 1 else if quad == 1 then 64 else if quad == 2 then 16 else 4)
    ensures Scanned(a + [junk] + b, quad, left, pads) == Scanned(a + b, quad, left, pads)
    decreases |a|
  {
    var text, plain := a + [junk] + b, a + b;
    if a == "" {
      assert text[0] == junk && text[1..] == plain;
    } else {
      var rest := a[1..];
      assert text[0] == a[0] == plain[0] && text[1..] == rest + [junk] + b && plain[1..] == rest + b;
      if a[0] == '=' {
        JunkIsSkipped(rest, junk, b, quad, left, pads);
        JunkIsSkipped(rest, junk, b, quad, left, pads + 1);
      } else if Sextet(a[0]).None? {
        JunkIsSkipped(rest, junk, b, quad, left, pads);
      } else {
        var bits := Sextet(a[0]).value;
        JunkIsSkipped(rest, junk, b, NextQuad(quad),
          if quad == 0 then bits else if quad == 1 then bits % 16 else if quad == 2 then bits % 4 else 0, 0);
      }
    }
  }

  predicate IsAlphabetic(text: string) {
    forall c | c in text :: Sextet(c).Some?
  }

  predicate Completes(padding: nat, quad: nat) {
    quad == 0 || (quad == 2 && padding == 2) || (quad == 3 && padding >= 1)
  }

  lemma {:induction false} QuadsMustEnd(text: string, padding: nat, quad: nat, left: nat)
    requires IsAlphabetic(text) && padding <= 2 && quad < 4
    requires left < (if quad == 0 then 1 else if quad == 1 then 64 else if quad == 2 then 16 else 4)
    ensures Scanned(text + Padding(padding), quad, left, 0).Some? <==> Completes(padding, (quad + |text|) % 4)
    decreases |text|
  {
    if text == "" {
      PaddingEnds(padding, quad, left);
      assert text + Padding(padding) == Padding(padding);
    } else {
      var bits := Sextet(text[0]).value;
      var left' := if quad == 0 then bits else if quad == 1 then bits % 16 else if quad == 2 then bits % 4 else 0;
      var rest := text[1..];
      QuadsMustEnd(rest, padding, NextQuad(quad), left');
      OneCharacterOn(text[0], rest + Padding(padding), quad, left, left');
      SameEnd(quad, |rest|);
      assert text + Padding(padding) == [text[0]] + (rest + Padding(padding));
    }
  }

  function NextQuad(quad: nat): nat {
    if quad == 3 then 0 else quad + 1
  }

  lemma SameEnd(quad: nat, length: nat)
    requires quad < 4
    ensures (NextQuad(quad) + length) % 4 == (quad + length + 1) % 4
  {
    if quad == 3 {
      assert (length + 4) % 4 == length % 4;
    }
  }

  /** A character of the alphabet moves the quad on. */
  lemma OneCharacterOn(c: char, rest: string, quad: nat, left: nat, left': nat)
    requires Sextet(c).Some? && quad < 4
    requires left < (if quad == 0 then 1 else if quad == 1 then 64 else if quad == 2 then 16 else 4)
    requires var bits := Sextet(c).value;
             left' == if quad == 0 then bits else if quad == 1 then bits % 16 else if quad == 2 then bits % 4 else 0
    ensures Scanned([c] + rest, quad, left, 0).Some? <==> Scanned(rest, NextQuad(quad), left', 0).Some?
  {
    assert ([c] + rest)[1..] == rest;
  }

  function Padding(n: nat): string {
    if n == 0 then "" else ['='] + Padding(n - 1)
  }

  lemma PaddingEnds(padding: nat, quad: nat, left: nat)
    requires padding <= 2 && quad < 4
    requires left < (if quad == 0 then 1 else if quad == 1 then 64 else if quad == 2 then 16 else 4)
    ensures Scanned(Padding(padding), quad, left, 0).Some? <==> Completes(padding, quad)
  {
    assert Padding(0) == "";
    assert Padding(1) == ['='] && Padding(1)[1..] == "";
    assert Padding(2) == ['=', '='] && Padding(2)[1..] == ['='];
    assert ['='][1..] == "";
    assert Scanned("", quad, left, 0).Some? <==> quad == 0;
    assert Scanned("", quad, left, 1).Some? <==> quad == 0;
  }

  /** Text of the alphabet alone is read if and only if its last quad is complete, or completed by its
      padding. */
  lemma Base64IsReadIff(text: string, padding: nat)
    requires IsAlphabetic(text) && padding <= 2
    ensures Decoded(text + Padding(padding)).Some? <==>
            |text| % 4 == 0 || (|text| % 4 == 2 && padding == 2) || (|text| % 4 == 3 && padding >= 1)
  {
    QuadsMustEnd(text, padding, 0, 0);
  }
}
