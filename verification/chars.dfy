/** Character classes shared by the parser and the encoder. A `char` stands
    for one byte of the text. */
module JsonChars {

  /** The UTF-8 byte-order mark, accepted before a document and optionally
      written before one. */
  const BOM: seq<char> := [0xEF as char, 0xBB as char, 0xBF as char]

  /** Dafny has no `\b` or `\f` escape. */
  const Backspace: char := 0x08 as char
  const FormFeed: char := 0x0C as char

  predicate IsWhitespace(c: char) {
    c == ' ' || c == '\t' || c == '\r' || c == '\n'
  }

  predicate IsDigit(c: char) {
    '0' <= c <= '9'
  }

  predicate AllWhitespace(s: seq<char>) {
    forall i :: 0 <= i < |s| ==> IsWhitespace(s[i])
  }

  /** A control byte: one the parser refuses to see raw inside a string. */
  predicate IsControl(c: char) {
    c as int <= 0x1F
  }

  /** The control bytes that have a two-character escape. */
  predicate HasShortEscape(c: char) {
    c == Backspace || c == FormFeed || c == '\n' || c == '\r' || c == '\t'
  }

  /** A byte that survives encoding and parsing unchanged: not a control byte,
      or a control byte with a short escape. The other control bytes are
      written as `\u00XX`, which the parser refuses. */
  predicate IsRoundTripChar(c: char) {
    !IsControl(c) || HasShortEscape(c)
  }

  predicate IsRoundTripString(s: string) {
    forall i :: 0 <= i < |s| ==> IsRoundTripChar(s[i])
  }

  /** The decimal digit for `d`. */
  function DigitChar(d: nat): (c: char)
    requires d < 10
    ensures IsDigit(c) && DigitValue(c) == d
  {
    ('0' as int + d) as char
  }

  /** The decimal representation of `n`, most significant digit first, with
      no leading zero: what `std::to_string` writes. */
  function Digits(n: nat): (r: seq<char>)
    ensures |r| > 0
    ensures forall i :: 0 <= i < |r| ==> IsDigit(r[i])
    ensures r[0] == '0' <==> n == 0
  {
    if n < 10 then [DigitChar(n)] else Digits(n / 10) + [DigitChar(n % 10)]
  }

  /** The value of one decimal digit. */
  function DigitValue(c: char): (d: nat)
    requires IsDigit(c)
    ensures d < 10
  {
    (c as int) - ('0' as int)
  }

  /** The value of a run of decimal digits, as `std::stoll` reads it: leading
      zeros are allowed. */
  function DigitsValue(ds: seq<char>): nat
    requires forall i :: 0 <= i < |ds| ==> IsDigit(ds[i])
  {
    if |ds| == 0 then 0
    else DigitsValue(ds[..|ds| - 1]) * 10 + DigitValue(ds[|ds| - 1])
  }

  /** `DigitsValue` reads back what `Digits` writes. */
  lemma {:induction false} DigitsValueOfDigits(n: nat)
    ensures DigitsValue(Digits(n)) == n
  {
    var ds := Digits(n);
    if n >= 10 {
      assert ds[..|ds| - 1] == Digits(n / 10);
      DigitsValueOfDigits(n / 10);
    }
  }

  /** Leading zeros do not change the value. */
  lemma {:induction false} DigitsValueLeadingZero(ds: seq<char>)
    requires forall i :: 0 <= i < |ds| ==> IsDigit(ds[i])
    ensures DigitsValue(['0'] + ds) == DigitsValue(ds)
  {
    if |ds| > 0 {
      var zs := ['0'] + ds;
      assert zs[..|zs| - 1] == ['0'] + ds[..|ds| - 1];
      DigitsValueLeadingZero(ds[..|ds| - 1]);
    }
  }
}
