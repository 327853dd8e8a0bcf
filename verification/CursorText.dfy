/** Digits, base64url and first-occurrence search: the text layer below the page cursor. */
module CursorText {
  import opened Prelude

  type byte = x: int | 0 <= x < 256

  /** Decimal fields and hexadecimal identifiers; the two bases are spelled out so that every
      product and quotient below is linear. */
  datatype Base = Decimal | Hexadecimal

  function Scaled(value: nat, base: Base): nat {
    if base == Decimal then value * 10 else value * 16
  }

  function Quotient(value: nat, base: Base): nat {
    if base == Decimal then value / 10 else value / 16
  }

  function Remainder(value: nat, base: Base): nat {
    if base == Decimal then value % 10 else value % 16
  }

  function Power(base: Base, exponent: nat): nat {
    if exponent == 0 then 1 else Scaled(Power(base, exponent - 1), base)
  }

  /** Lower-case digits, as printf writes them. */
  function DigitOf(value: nat): char
    requires value < 16
  {
    if value < 10 then '0' + value as char else 'a' + (value - 10) as char
  }

  predicate IsDigit(c: char) {
    '0' <= c <= '9' || 'a' <= c <= 'f'
  }

  function DigitValue(c: char): Option<nat> {
    if '0' <= c <= '9' then Some(c as nat - '0' as nat)
    else if 'a' <= c <= 'f' then Some(c as nat - 'a' as nat + 10)
    else if 'A' <= c <= 'F' then Some(c as nat - 'A' as nat + 10)
    else None
  }

  /** Zero-padded fixed-width digits, most significant first. */
  function Printed(value: nat, base: Base, width: nat): (text: string)
    ensures |text| == width
    ensures forall c | c in text :: IsDigit(c)
  {
    if width == 0 then ""
    else Printed(Quotient(value, base), base, width - 1) + [DigitOf(Remainder(value, base))]
  }

  function Number(text: string, base: Base): Option<nat> {
    if text == "" then Some(0) else Appended(Number(text[..|text| - 1], base), text[|text| - 1], base)
  }

  function Appended(high: Option<nat>, last: char, base: Base): Option<nat> {
    match (high, DigitValue(last))
    case (Some(value), Some(digit)) =>
      if digit < Scaled(1, base) then Some(Scaled(value, base) + digit) else None
    case _ => None
  }

  lemma LastDigitReadsBack(value: nat, base: Base)
    ensures Appended(Some(Quotient(value, base)), DigitOf(Remainder(value, base)), base) == Some(value)
  {
    assert DigitValue(DigitOf(Remainder(value, base))) == Some(Remainder(value, base));
  }

  lemma QuotientIsSmaller(value: nat, base: Base, power: nat)
    requires value < Scaled(power, base)
    ensures Quotient(value, base) < power
  {}

  lemma {:induction false} NumberReadsPrinted(value: nat, base: Base, width: nat)
    requires value < Power(base, width)
    ensures Number(Printed(value, base, width), base) == Some(value)
  {
    if width > 0 {
      var high, last := Quotient(value, base), DigitOf(Remainder(value, base));
      QuotientIsSmaller(value, base, Power(base, width - 1));
      NumberReadsPrinted(high, base, width - 1);
      var front := Printed(high, base, width - 1);
      assert (front + [last])[..width - 1] == front;
      LastDigitReadsBack(value, base);
    }
  }

  /** What a decimal field or a UUID can hold. */
  lemma {:induction false} NumberIsBounded(text: string, base: Base)
    requires Number(text, base).Some?
    ensures Number(text, base).value < Power(base, |text|)
  {
    if text != "" {
      NumberIsBounded(text[..|text| - 1], base);
    }
  }

  /** The position of the first character of `marks`, or the length. */
  function First(text: string, marks: string): (position: nat)
    ensures position <= |text|
    ensures position < |text| ==> text[position] in marks
    ensures forall i | 0 <= i < position :: text[i] !in marks
  {
    if text == "" || text[0] in marks then 0 else 1 + First(text[1..], marks)
  }

  lemma FirstAfterPrefix(prefix: string, rest: string, marks: string)
    requires forall i | 0 <= i < |prefix| :: prefix[i] !in marks
    requires rest == "" || rest[0] in marks
    ensures First(prefix + rest, marks) == |prefix|
  {
    var text, position := prefix + rest, First(prefix + rest, marks);
    assert forall i | 0 <= i < |prefix| :: text[i] == prefix[i];
    assert rest != "" ==> text[|prefix|] == rest[0];
  }

  /** Every occurrence of `pattern` cut out, left to right. */
  function Without(text: string, pattern: string): string
    requires pattern != ""
  {
    if |text| < |pattern| then text
    else if text[..|pattern|] == pattern then Without(text[|pattern|..], pattern)
    else [text[0]] + Without(text[1..], pattern)
  }

  lemma {:induction false} WithoutAbsent(text: string, pattern: string)
    requires pattern != "" && pattern[0] !in text
    ensures Without(text, pattern) == text
  {
    if |text| >= |pattern| {
      assert text[..|pattern|][0] == text[0];
      WithoutAbsent(text[1..], pattern);
    }
  }

  /** Cutting single characters distributes over concatenation. */
  lemma {:induction false} WithoutConcat(a: string, b: string, c: char)
    ensures Without(a + b, [c]) == Without(a, [c]) + Without(b, [c])
  {
    if a == "" {
      assert a + b == b;
    } else {
      assert (a + b)[..1] == a[..1] && (a + b)[1..] == a[1..] + b;
      WithoutConcat(a[1..], b, c);
    }
  }

  /** The URL-safe alphabet. */
  function Symbol(bits: nat): char
    requires bits < 64
  {
    if bits < 26 then 'A' + bits as char
    else if bits < 52 then 'a' + (bits - 26) as char
    else if bits < 62 then '0' + (bits - 52) as char
    else if bits == 62 then '-' else '_'
  }

  /** The six bits a character stands for; both alphabets of base64 are read. */
  function Sextet(c: char): (bits: Option<nat>)
    ensures bits.Some? ==> bits.value < 64
  {
    if 'A' <= c <= 'Z' then Some(c as nat - 'A' as nat)
    else if 'a' <= c <= 'z' then Some(c as nat - 'a' as nat + 26)
    else if '0' <= c <= '9' then Some(c as nat - '0' as nat + 52)
    else if c == '-' || c == '+' then Some(62)
    else if c == '_' || c == '/' then Some(63)
    else None
  }

  /** Base64url with padding, three bytes to four characters. */
  function Encoded(data: seq<byte>): string {
    if |data| == 0 then ""
    else if |data| == 1 then [Symbol(data[0] / 4), Symbol(data[0] % 4 * 16), '=', '=']
    else if |data| == 2 then
      [Symbol(data[0] / 4), Symbol(data[0] % 4 * 16 + data[1] / 16), Symbol(data[1] % 16 * 4), '=']
    else
      [Symbol(data[0] / 4), Symbol(data[0] % 4 * 16 + data[1] / 16),
       Symbol(data[1] % 16 * 4 + data[2] / 64), Symbol(data[2] % 64)] + Encoded(data[3..])
  }

  /** The library's lenient scanner: unknown characters are skipped, padding that completes a quad
      ends the data, and an unfinished quad is an error (None). */
  function Scanned(text: string, quad: nat, left: nat, pads: nat): Option<seq<byte>>
    requires quad < 4
    requires left < (if quad == 0 then 1 else if quad == 1 then 64 else if quad == 2 then 16 else 4)
  {
    if text == "" then if quad == 0 then Some([]) else None
    else if text[0] == '=' then
      if quad < 2 then Scanned(text[1..], quad, left, pads)
      else if quad + pads + 1 >= 4 then Some([])
      else Scanned(text[1..], quad, left, pads + 1)
    else match Sextet(text[0])
      case None => Scanned(text[1..], quad, left, pads)
      case Some(bits) =>
        if quad == 0 then Scanned(text[1..], 1, bits, 0)
        else if quad == 1 then Prepended(left * 4 + bits / 16, Scanned(text[1..], 2, bits % 16, 0))
        else if quad == 2 then Prepended(left * 16 + bits / 4, Scanned(text[1..], 3, bits % 4, 0))
        else Prepended(left * 64 + bits, Scanned(text[1..], 0, 0, 0))
  }

  function Prepended(first: byte, rest: Option<seq<byte>>): Option<seq<byte>> {
    match rest case None => None case Some(bytes) => Some([first] + bytes)
  }

  function Decoded(text: string): Option<seq<byte>> {
    Scanned(text, 0, 0, 0)
  }

  lemma ScanStep(bits: nat, rest: string, quad: nat, left: nat, pads: nat)
    requires bits < 64 && quad < 4
    requires left < (if quad == 0 then 1 else if quad == 1 then 64 else if quad == 2 then 16 else 4)
    ensures Scanned([Symbol(bits)] + rest, quad, left, pads) ==
            (if quad == 0 then Scanned(rest, 1, bits, 0)
             else if quad == 1 then Prepended(left * 4 + bits / 16, Scanned(rest, 2, bits % 16, 0))
             else if quad == 2 then Prepended(left * 16 + bits / 4, Scanned(rest, 3, bits % 4, 0))
             else Prepended(left * 64 + bits, Scanned(rest, 0, 0, 0)))
  {
    assert Sextet(Symbol(bits)) == Some(bits);
    assert ([Symbol(bits)] + rest)[1..] == rest;
  }

  lemma ScanQuad(a: nat, b: nat, c: nat, d: nat, rest: string)
    requires a < 64 && b < 64 && c < 64 && d < 64
    ensures Scanned([Symbol(a), Symbol(b), Symbol(c), Symbol(d)] + rest, 0, 0, 0) ==
            Prepended(a * 4 + b / 16,
              Prepended(b % 16 * 16 + c / 4, Prepended(c % 4 * 64 + d, Scanned(rest, 0, 0, 0))))
  {
    var fourth := [Symbol(d)] + rest;
    var third := [Symbol(c)] + fourth;
    var second := [Symbol(b)] + third;
    assert [Symbol(a), Symbol(b), Symbol(c), Symbol(d)] + rest == [Symbol(a)] + second;
    ScanStep(a, second, 0, 0, 0);
    ScanStep(b, third, 1, a, 0);
    ScanStep(c, fourth, 2, b % 16, 0);
    ScanStep(d, rest, 3, c % 4, 0);
  }

  lemma ScanTailOfOne(a: nat, b: nat)
    requires a < 64 && b < 64
    ensures Scanned([Symbol(a), Symbol(b), '=', '='], 0, 0, 0) == Some([a * 4 + b / 16])
  {
    var second := [Symbol(b)] + ['=', '='];
    assert [Symbol(a), Symbol(b), '=', '='] == [Symbol(a)] + second;
    ScanStep(a, second, 0, 0, 0);
    ScanStep(b, ['=', '='], 1, a, 0);
    assert ['=', '='][1..] == ['='];
    assert Scanned(['='], 2, b % 16, 1) == Some([]);
    assert [a * 4 + b / 16] + [] == [a * 4 + b / 16];
  }

  lemma ScanTailOfTwo(a: nat, b: nat, c: nat)
    requires a < 64 && b < 64 && c < 64
    ensures Scanned([Symbol(a), Symbol(b), Symbol(c), '='], 0, 0, 0) ==
            Some([a * 4 + b / 16, b % 16 * 16 + c / 4])
  {
    var third := [Symbol(c)] + ['='];
    var second := [Symbol(b)] + third;
    assert [Symbol(a), Symbol(b), Symbol(c), '='] == [Symbol(a)] + second;
    ScanStep(a, second, 0, 0, 0);
    ScanStep(b, third, 1, a, 0);
    ScanStep(c, ['='], 2, b % 16, 0);
    assert Scanned(['='], 3, c % 4, 0) == Some([]);
    var x, y := a * 4 + b / 16, b % 16 * 16 + c / 4;
    assert [x] + ([y] + []) == [x, y];
  }

  lemma RegroupTriple(x: byte, y: byte, z: byte)
    ensures x % 4 * 16 + y / 16 < 64 && y % 16 * 4 + z / 64 < 64
    ensures (x / 4) * 4 + (x % 4 * 16 + y / 16) / 16 == x
    ensures (x % 4 * 16 + y / 16) % 16 * 16 + (y % 16 * 4 + z / 64) / 4 == y
    ensures (y % 16 * 4 + z / 64) % 4 * 64 + z % 64 == z
  {}

  lemma RoundTripOfOne(x: byte)
    ensures Decoded(Encoded([x])) == Some([x])
  {
    RegroupTriple(x, 0, 0);
    ScanTailOfOne(x / 4, x % 4 * 16);
  }

  lemma RoundTripOfTwo(x: byte, y: byte)
    ensures Decoded(Encoded([x, y])) == Some([x, y])
  {
    EncodedPair(x, y);
    RegroupTriple(x, y, 0);
    ScanTailOfTwo(x / 4, x % 4 * 16 + y / 16, y % 16 * 4);
  }

  lemma EncodedPair(x: byte, y: byte)
    ensures Encoded([x, y]) == [Symbol(x / 4), Symbol(x % 4 * 16 + y / 16), Symbol(y % 16 * 4), '=']
  {}

  lemma RoundTripOfTriple(x: byte, y: byte, z: byte, rest: seq<byte>)
    requires Decoded(Encoded(rest)) == Some(rest)
    ensures Decoded(Encoded([x, y, z] + rest)) == Some([x, y, z] + rest)
  {
    EncodedTriple(x, y, z, rest);
    RegroupTriple(x, y, z);
    ScanQuad(x / 4, x % 4 * 16 + y / 16, y % 16 * 4 + z / 64, z % 64, Encoded(rest));
    assert [x] + ([y] + ([z] + rest)) == [x, y, z] + rest;
  }

  lemma EncodedTriple(x: byte, y: byte, z: byte, rest: seq<byte>)
    ensures Encoded([x, y, z] + rest) ==
            [Symbol(x / 4), Symbol(x % 4 * 16 + y / 16), Symbol(y % 16 * 4 + z / 64), Symbol(z % 64)] + Encoded(rest)
  {
    assert ([x, y, z] + rest)[3..] == rest;
  }

  /** Decoding gives back the bytes encoded, whatever padding their number calls for. */
  lemma {:induction false} Base64RoundTrip(data: seq<byte>)
    ensures Decoded(Encoded(data)) == Some(data)
  {
    if |data| == 1 {
      RoundTripOfOne(data[0]);
      assert data == [data[0]];
    } else if |data| == 2 {
      RoundTripOfTwo(data[0], data[1]);
      assert data == [data[0], data[1]];
    } else if |data| >= 3 {
      Base64RoundTrip(data[3..]);
      RoundTripOfTriple(data[0], data[1], data[2], data[3..]);
      assert data == [data[0], data[1], data[2]] + data[3..];
    }
  }
}
