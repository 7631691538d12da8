/** The cursor that a peek hands out and takes back: base64url of the decimal time,
    a colon, and the id. */
module Cursors {
  import opened Bits
  import opened Wrappers
  import Base64Url

  datatype Cursor = Cursor(created: int, id: string)

  const COLON: Byte := ':' as int
  const PLUS: Byte := '+' as int
  const MINUS: Byte := '-' as int
  const I64_LIMIT: int := 0x8000_0000_0000_0000

  function Ascii(s: string): (bytes: seq<Byte>)
    ensures |bytes| == |s|
  {
    seq(|s|, i requires 0 <= i < |s| => s[i] as int % 256)
  }

  function Chars(bytes: seq<Byte>): (s: string)
    ensures |s| == |bytes|
  {
    seq(|bytes|, i requires 0 <= i < |bytes| => bytes[i] as char)
  }

  predicate IdChar(c: char) {
    'a' <= c <= 'z' || 'A' <= c <= 'Z' || '0' <= c <= '9' || c == '_' || c == '-'
  }

  /** The test that cursors and batches put ids to. */
  ghost predicate ValidId(id: string) {
    1 <= |id| <= 80 && forall i :: 0 <= i < |id| ==> IdChar(id[i])
  }

  /** `to_string` of a number that is not negative. */
  function Decimal(n: nat): seq<Byte> {
    if n < 10 then [48 + n] else Decimal(n / 10) + [48 + n % 10]
  }

  predicate Digit(b: Byte) { 48 <= b <= 57 }

  /** The value of a run of digits; `None` when one is not a digit. */
  function DigitsValue(s: seq<Byte>): Option<nat> {
    if s == [] then Some(0)
    else if !Digit(s[|s| - 1]) then None
    else
      match DigitsValue(s[..|s| - 1])
      case None => None
      case Some(v) => Some(v * 10 + (s[|s| - 1] - 48))
  }

  /** `parse::<i64>`: an optional sign, at least one digit, and no overflow. */
  function ParseI64(s: seq<Byte>): Option<int> {
    if s == [] then None
    else
      var signed := s[0] == PLUS || s[0] == MINUS;
      var digits := if signed then s[1..] else s;
      if digits == [] then None
      else
        match DigitsValue(digits)
        case None => None
        case Some(v) =>
          var n: int := v;
          var value := if s[0] == MINUS then -n else n;
          if -I64_LIMIT <= value < I64_LIMIT then Some(value) else None
  }

  /** The position of the first colon, or the length. */
  function FirstColon(s: seq<Byte>): (i: nat)
    ensures i <= |s| && COLON !in s[..i] && (i < |s| ==> s[i] == COLON)
  {
    if s == [] || s[0] == COLON then 0
    else
      var i := FirstColon(s[1..]);
      assert s[..i + 1] == [s[0]] + s[1..][..i];
      i + 1
  }

  function RawCursor(c: Cursor): seq<Byte>
    requires c.created >= 0
  {
    Decimal(c.created) + [COLON] + Ascii(c.id)
  }

  function EncodeCursor(c: Cursor): seq<Byte>
    requires c.created >= 0
  {
    Base64Url.Encode(RawCursor(c))
  }

  /** `decode_cursor` after the base64url. */
  ghost function ParseCursor(raw: seq<Byte>): Option<Cursor> {
    var i := FirstColon(raw);
    if i == |raw| then None
    else
      match ParseI64(raw[..i])
      case None => None
      case Some(created) =>
        var id := Chars(raw[i + 1..]);
        if created < 0 || !ValidId(id) then None else Some(Cursor(created, id))
  }

  ghost function DecodeCursor(encoded: seq<Byte>): Option<Cursor> {
    match Base64Url.Decode(encoded)
    case None => None
    case Some(raw) => ParseCursor(raw)
  }

  lemma {:induction false} DecimalParses(n: nat)
    ensures DigitsValue(Decimal(n)) == Some(n)
    ensures Decimal(n) != [] && forall i :: 0 <= i < |Decimal(n)| ==> Digit(Decimal(n)[i])
  {
    if n >= 10 {
      DecimalParses(n / 10);
      assert Decimal(n)[..|Decimal(n)| - 1] == Decimal(n / 10);
    } else {
      assert Decimal(n)[..0] == [];
    }
  }

  function Pow10(k: nat): nat { if k == 0 then 1 else 10 * Pow10(k - 1) }

  lemma {:induction false} DecimalLength(n: nat, k: nat)
    requires k >= 1 && n < Pow10(k)
    ensures |Decimal(n)| <= k
  {
    if n >= 10 { DecimalLength(n / 10, k - 1); }
  }

  lemma {:induction false} ColonAfter(d: seq<Byte>, rest: seq<Byte>)
    requires rest != [] && rest[0] == COLON
    requires forall i :: 0 <= i < |d| ==> Digit(d[i])
    ensures FirstColon(d + rest) == |d|
  {
    if d != [] {
      ColonAfter(d[1..], rest);
      assert (d + rest)[1..] == d[1..] + rest;
    } else {
      assert d + rest == rest;
    }
  }

  /** A cursor that was handed out is taken back as it was. */
  lemma CursorRoundTrip(c: Cursor)
    requires 0 <= c.created < I64_LIMIT && ValidId(c.id)
    ensures DecodeCursor(EncodeCursor(c)) == Some(c)
  {
    hide Base64Url.Encode, Base64Url.Decode;
    var raw := RawCursor(c);
    Base64Url.DecodeInvertsEncode(raw, EncodeCursor(c));
    DecimalParses(c.created);
    var d := Decimal(c.created);
    var i := FirstColon(raw);
    assert raw == d + ([COLON] + Ascii(c.id));
    ColonAfter(d, [COLON] + Ascii(c.id));
    assert raw[..i] == d && raw[i + 1..] == Ascii(c.id);
    assert Digit(d[0]);
    AsciiRoundTrip(c.id);
  }

  lemma AsciiRoundTrip(id: string)
    requires ValidId(id)
    ensures Chars(Ascii(id)) == id
  {
    forall i | 0 <= i < |id| ensures Chars(Ascii(id))[i] == id[i] { assert IdChar(id[i]); }
  }

  predicate AllDigits(s: seq<Byte>) { forall i :: 0 <= i < |s| ==> Digit(s[i]) }

  /** A raw cursor of an accepted time: one sign at most, with a minus only before zero,
      and any number of leading zeros. */
  ghost predicate Spells(sign: seq<Byte>, digits: seq<Byte>, created: int) {
    && (sign == [] || sign == [PLUS] || (sign == [MINUS] && created == 0))
    && digits != [] && DigitsValue(digits) == Some(created) && created < I64_LIMIT
  }

  ghost function Encoded(sign: seq<Byte>, digits: seq<Byte>, id: string): seq<Byte> {
    Base64Url.Encode(sign + digits + [COLON] + Ascii(id))
  }

  lemma {:induction false} ValueHasDigits(s: seq<Byte>)
    ensures DigitsValue(s).Some? <==> AllDigits(s)
  {
    if s != [] {
      ValueHasDigits(s[..|s| - 1]);
      assert s == s[..|s| - 1] + [s[|s| - 1]];
    }
  }

  /** What `decode_cursor` accepts, and as what. */
  lemma AcceptedCursor(encoded: seq<Byte>, c: Cursor)
    ensures DecodeCursor(encoded) == Some(c) <==>
      ValidId(c.id) && exists sign, digits :: Spells(sign, digits, c.created) && encoded == Encoded(sign, digits, c.id)
  {
    hide Base64Url.Encode, Base64Url.Decode;
    if DecodeCursor(encoded) == Some(c) {
      var raw := Base64Url.Decode(encoded).value;
      Base64Url.DecodeInvertsEncode(raw, encoded);
      var sign, digits := ParsedCursor(raw, c);
      assert encoded == Encoded(sign, digits, c.id);
    }
    if sign, digits :| ValidId(c.id) && Spells(sign, digits, c.created) && encoded == Encoded(sign, digits, c.id) {
      var raw := sign + digits + [COLON] + Ascii(c.id);
      Base64Url.DecodeInvertsEncode(raw, encoded);
      SpelledParses(sign, digits, c);
    }
  }

  lemma ParsedCursor(raw: seq<Byte>, c: Cursor) returns (sign: seq<Byte>, digits: seq<Byte>)
    requires ParseCursor(raw) == Some(c)
    ensures Spells(sign, digits, c.created) && ValidId(c.id) && raw == sign + digits + [COLON] + Ascii(c.id)
  {
    var i := FirstColon(raw);
    var number := raw[..i];
    var id := raw[i + 1..];
    var n: nat := if number[0] == PLUS || number[0] == MINUS then 1 else 0;
    sign, digits := number[..n], number[n..];
    assert Ascii(Chars(id)) == id;
    assert raw == number + [COLON] + id;
  }

  lemma SpelledParses(sign: seq<Byte>, digits: seq<Byte>, c: Cursor)
    requires Spells(sign, digits, c.created) && ValidId(c.id)
    ensures ParseCursor(sign + digits + [COLON] + Ascii(c.id)) == Some(c)
  {
    var number := sign + digits;
    var raw := number + ([COLON] + Ascii(c.id));
    assert sign + digits + [COLON] + Ascii(c.id) == raw;
    hide FirstColon, ParseI64, DigitsValue;
    NumberParses(sign, digits, c.created);
    ColonAfterNumber(sign, digits, [COLON] + Ascii(c.id));
    assert raw[..|number|] == number && raw[|number| + 1..] == Ascii(c.id);
    AsciiRoundTrip(c.id);
  }

  lemma ColonAfterNumber(sign: seq<Byte>, digits: seq<Byte>, rest: seq<Byte>)
    requires sign == [] || sign == [PLUS] || sign == [MINUS]
    requires DigitsValue(digits).Some? && rest != [] && rest[0] == COLON
    ensures FirstColon(sign + digits + rest) == |sign + digits|
  {
    ValueHasDigits(digits);
    hide DigitsValue;
    ColonAfter(digits, rest);
    if sign == [] {
      assert sign + digits + rest == digits + rest;
    } else {
      assert (sign + digits + rest)[1..] == digits + rest;
    }
  }

  lemma NumberParses(sign: seq<Byte>, digits: seq<Byte>, created: int)
    requires Spells(sign, digits, created)
    ensures ParseI64(sign + digits) == Some(created)
  {
    ValueHasDigits(digits);
    hide DigitsValue;
    if sign == [] {
      assert sign + digits == digits && Digit(digits[0]);
    } else {
      assert (sign + digits)[1..] == digits;
    }
  }

  lemma I64Digits()
    ensures I64_LIMIT < Pow10(19)
  {
    assert Pow10(7) == 1000_0000;
    assert Pow10(13) == 1000_0000 * 100_0000;
  }

  /** A cursor is at most 134 characters. */
  lemma CursorLength(c: Cursor)
    requires 0 <= c.created < I64_LIMIT && |c.id| <= 80
    ensures |EncodeCursor(c)| <= 134
  {
    hide Base64Url.Encode;
    I64Digits();
    DecimalLength(c.created, 19);
    Base64Url.EncodedLength(RawCursor(c));
  }
}
