/** The string escaper where `char` is a signed type, as it is on x86 and
    x86-64. There `c <= 0x1F` holds for every byte from 0x80 to 0xFF,
    because such a byte reads as a negative number. The escaper then writes
    it as `\uffXX`, whose hexadecimal digits come from the sign-extended
    value. The parser refuses every `\u` escape, so a string holding a UTF-8
    sequence does not survive `encode` then `parse`. The rest of the model
    reads bytes as unsigned, which is the reading under which the escaper
    does what it evidently means to do. */
module JsonFindings {
  import opened JsonErrors
  import opened JsonChars
  import opened JsonValue
  import opened JsonParser
  import opened JsonEncoder
  import opened JsonParserFacts
  import opened JsonRoundTrip

  /** The byte `c` read as a signed `char`: two's complement, so the bytes
      from 0x80 up are negative. */
  function SignedChar(c: char): (n: int)
    ensures c as int < 0x100 ==> -0x80 <= n < 0x80
    ensures n == c as int || n == c as int - 0x100
  {
    if c as int < 0x80 then c as int else c as int - 0x100
  }

  /** `\u` and the four digits of `(c >> (12 - p * 4)) & 0x0F` for `p` from
      0 to 3, with `c` sign-extended to `int`. The right shift of a negative
      number is arithmetic, that is, it rounds down. */
  function SignedUnicodeEscape(c: char): seq<char> {
    var n := SignedChar(c);
    ['\\', 'u', HexDigits[(n / 0x1000) % 16], HexDigits[(n / 0x100) % 16], HexDigits[(n / 0x10) % 16], HexDigits[n % 16]]
  }

  /** How one byte of a string is escaped when `char` is signed. */
  function SignedEscapeChar(c: char): seq<char> {
    if c == '"' then ['\\', '"']
    else if c == '\\' then ['\\', '\\']
    else if c == '/' then ['\\', '/']
    else if c == Backspace then ['\\', 'b']
    else if c == FormFeed then ['\\', 'f']
    else if c == '\n' then ['\\', 'n']
    else if c == '\r' then ['\\', 'r']
    else if c == '\t' then ['\\', 't']
    else if SignedChar(c) <= 0x1F then SignedUnicodeEscape(c)
    else [c]
  }

  function SignedEscapeString(s: string): seq<char> {
    if |s| == 0 then [] else SignedEscapeChar(s[0]) + SignedEscapeString(s[1..])
  }

  /** The two readings agree on ASCII. */
  lemma SignedAgreesOnAscii(c: char)
    requires c as int < 0x80
    ensures SignedEscapeChar(c) == EscapeChar(c)
  {
    assert SignedChar(c) == c as int;
  }

  /** With a signed `char`, every byte from 0x80 to 0xFF is written as
      `\uff` and its own two hexadecimal digits. */
  lemma SignedEscapesHighByte(c: char)
    requires 0x80 <= c as int < 0x100
    ensures SignedEscapeChar(c) == ['\\', 'u', 'f', 'f', HexDigits[c as int / 16], HexDigits[c as int % 16]]
  {
    var n := c as int - 0x100;
    var hi, lo := c as int / 16, c as int % 16;
    assert c as int == 16 * hi + lo && 8 <= hi < 16;
    assert n == 16 * (hi - 16) + lo;
    assert n / 0x10 == hi - 16 && n % 16 == lo;
    assert (hi - 16) % 16 == hi;
    assert n / 0x1000 == -1 && n / 0x100 == -1;
  }

  /** Read as unsigned, the same bytes are copied as they are. */
  lemma UnsignedCopiesHighByte(c: char)
    requires 0x80 <= c as int
    ensures EscapeChar(c) == [c]
  {
  }

  /** The first byte of "ē" in UTF-8. */
  const HighByte: char := 0xC4 as char

  /** As written, with a signed `char`: the one-byte string 0xC4 is encoded
      as `"\uffc4"`, and the parser refuses that document. */
  lemma SignedRoundTripFails()
    ensures Parse(['"'] + SignedEscapeString([HighByte]) + ['"']) == Err(ParseError("Invalid character code"))
  {
    SignedDocumentText();
    UnicodeEscapeRejected([], ['f', 'f', 'c', '4', '"']);
    RejectedString(['"'] + [] + (['\\', 'u'] + ['f', 'f', 'c', '4', '"']), ParseError("Invalid character code"));
  }

  lemma SignedDocumentText()
    ensures ['"'] + SignedEscapeString([HighByte]) + ['"'] == ['"'] + [] + (['\\', 'u'] + ['f', 'f', 'c', '4', '"'])
  {
    HighByteText();
  }

  lemma HighByteText()
    ensures SignedEscapeString([HighByte]) == "\\uffc4"
  {
    SignedEscapesHighByte(HighByte);
    assert HexDigits[12] == 'c' && HexDigits[4] == '4';
    assert SignedEscapeString([HighByte]) == SignedEscapeChar(HighByte) + SignedEscapeString([]);
  }

  /** Corrected, with the byte read as unsigned: the one-byte string 0xC4
      is copied into the document as it is. */
  lemma UnsignedHighByteText()
    ensures EncodeDocument(Str([HighByte]), false, false) == ['"', HighByte, '"']
  {
    assert EscapeString([HighByte]) == [HighByte] + EscapeString([]);
  }

  /** Corrected: that document is parsed back to the same string. */
  lemma UnsignedRoundTripHolds()
    ensures Parse(EncodeDocument(Str([HighByte]), false, false)) == Ok(Str([HighByte]))
  {
    assert IsRoundTripString([HighByte]);
    RoundTrip(Str([HighByte]), false, false);
  }
}
