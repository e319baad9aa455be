/** `json::parse`: a recursive-descent parser that walks the text directly.

    Each function takes the text not yet read and returns what it built
    together with the text it did not consume; the library's iterator
    position is the input length minus the length of that rest. A thrown
    `ParseError` is an `Err` carrying the library's message. */
module JsonParser {
  import opened JsonErrors
  import opened JsonChars
  import opened JsonValue

  /** `r` is what remains of `s` after reading a prefix of it. */
  predicate IsSuffix(r: seq<char>, s: seq<char>) {
    |r| <= |s| && r == s[|s| - |r|..]
  }

  function HasByteOrderMark(s: seq<char>): (r: bool)
    ensures r <==> |s| >= 3 && s[..3] == BOM
  {
    |s| >= 3 && s[0] == BOM[0] && s[1] == BOM[1] && s[2] == BOM[2]
  }

  /** Drops the longest prefix of space, tab, CR and LF. */
  function SkipWhitespaces(s: seq<char>): (r: seq<char>)
    ensures |r| <= |s| && IsSuffix(r, s)
    ensures AllWhitespace(s[..|s| - |r|])
    ensures r == [] || !IsWhitespace(r[0])
  {
    if |s| > 0 && IsWhitespace(s[0]) then SkipWhitespaces(s[1..]) else s
  }

  /** Compares `s` with `expected` character by character and stops at the
      first difference, at the end of `expected` or at the END OF THE INPUT.
      Success means no difference was seen, so a keyword cut short by the end
      of the text matches. On failure the rest starts at the differing
      character, not where the comparison began. */
  function IsSame(s: seq<char>, expected: seq<char>): (r: (bool, seq<char>))
    ensures IsSuffix(r.1, s)
    ensures |s| - |r.1| <= |expected|
    ensures s[..|s| - |r.1|] == expected[..|s| - |r.1|]
    ensures r.0 <==> (|s| - |r.1| == |expected| || r.1 == [])
    ensures !r.0 ==> |r.1| > 0 && r.1[0] != expected[|s| - |r.1|]
  {
    if |s| == 0 || |expected| == 0 then (true, s)
    else if s[0] != expected[0] then (false, s)
    else IsSame(s[1..], expected[1..])
  }

  /** Length of the run of decimal digits that `s` starts with. */
  function DigitRunLength(s: seq<char>): (n: nat)
    ensures n <= |s|
    ensures forall i :: 0 <= i < n ==> IsDigit(s[i])
    ensures n == |s| || !IsDigit(s[n])
  {
    if |s| > 0 && IsDigit(s[0]) then 1 + DigitRunLength(s[1..]) else 0
  }

  /** The escape letters that stand for one byte. `u` is not among them: see
      `ParseStringBody`. */
  predicate IsEscapeLetter(c: char) {
    c == '"' || c == '\\' || c == '/' || c == 'b' || c == 'f' || c == 'n' || c == 'r' || c == 't'
  }

  /** The byte a two-character escape stands for. */
  function Unescape(c: char): (r: char)
    requires IsEscapeLetter(c)
    ensures IsRoundTripChar(r)
  {
    match c
    case '"' => '"'
    case '\\' => '\\'
    case '/' => '/'
    case 'b' => Backspace
    case 'f' => FormFeed
    case 'n' => '\n'
    case 'r' => '\r'
    case 't' => '\t'
  }

  /** The characters of a string literal after its opening quote, up to and
      including the closing quote. Bytes other than `"`, `\` and control bytes
      are copied verbatim.

      A `\u` escape always fails: after `case 'u'` the iterator still points
      at the `u`, which the hexadecimal-digit loop then rejects. */
  function ParseStringBody(s: seq<char>): (r: Result<(string, seq<char>)>)
    ensures r.Err? ==> r.error.ParseError?
    ensures r.Ok? ==> |r.value.1| < |s|
    ensures r.Ok? ==> IsRoundTripString(r.value.0)
  {
    if |s| == 0 then Err(ParseError("Invalid string"))
    else if s[0] == '"' then Ok(([], s[1..]))
    else if s[0] == '\\' then
      if |s| == 1 then Err(ParseError("Unterminated string literal"))
      else if s[1] == 'u' then Err(ParseError("Invalid character code"))
      else if !IsEscapeLetter(s[1]) then Err(ParseError("Unrecognized escape character"))
      else
        var tail :- ParseStringBody(s[2..]);
        Ok(([Unescape(s[1])] + tail.0, tail.1))
    else if IsControl(s[0]) then Err(ParseError("Unterminated string literal"))
    else
      var tail :- ParseStringBody(s[1..]);
      Ok(([s[0]] + tail.0, tail.1))
  }

  /** `parseString`: a quoted string literal. */
  function ParseString(s: seq<char>): (r: Result<(string, seq<char>)>)
    ensures r.Err? ==> r.error.ParseError?
    ensures r.Ok? ==> |r.value.1| < |s|
    ensures r.Ok? ==> IsRoundTripString(r.value.0)
    ensures |s| == 0 || s[0] != '"' ==> r == Err(ParseError("Invalid string"))
  {
    if |s| == 0 || s[0] != '"' then Err(ParseError("Invalid string"))
    else ParseStringBody(s[1..])
  }

  /** A run of digits as (part of) a number lexeme. */
  function NumberChars(ds: seq<char>): (r: Lexeme)
    requires forall i :: 0 <= i < |ds| ==> IsDigit(ds[i])
    ensures r == ds
  {
    assert forall i :: 0 <= i < |ds| ==> IsNumberChar(ds[i]);
    ds
  }

  /** The optional exponent after a fractional part: `e` or `E`, an optional
      sign, then at least one digit. */
  function ParseExponent(lexeme: Lexeme, s: seq<char>): (r: Result<(Value, seq<char>)>)
    ensures r.Err? ==> r.error.ParseError?
    ensures r.Ok? ==> |r.value.1| <= |s| && r.value.0.Num? && r.value.0.n.Frac?
  {
    if |s| > 0 && (s[0] == 'e' || s[0] == 'E') then
      if |s| == 1 then Err(ParseError("Invalid exponent"))
      else
        var signLength := if s[1] == '+' || s[1] == '-' then 1 else 0;
        var ds := s[1 + signLength..];
        if |ds| == 0 || !IsDigit(ds[0]) then Err(ParseError("Invalid exponent"))
        else
          var n := DigitRunLength(ds);
          var exponent: Lexeme := s[..1 + signLength] + NumberChars(ds[..n]);
          Ok((Num(Frac(lexeme + exponent)), ds[n..]))
    else Ok((Num(Frac(lexeme)), s))
  }

  /** A number: an optional `-` that must be followed by a digit, a run of
      digits (leading zeros allowed), then either nothing more, making an
      integer, or a `.` with a possibly empty run of digits and an optional
      exponent. An exponent is only looked for after a `.`. */
  function ParseNumber(t: seq<char>): (r: Result<(Value, seq<char>)>)
    ensures r.Err? ==> r.error.ParseError?
    requires |t| > 0 && (t[0] == '-' || IsDigit(t[0]))
    ensures r.Ok? ==> |r.value.1| < |t| && r.value.0.Num?
  {
    var sign := if t[0] == '-' then 1 else 0;
    var u := t[sign..];
    if |u| == 0 || !IsDigit(u[0]) then Err(ParseError("Invalid number"))
    else
      var n := DigitRunLength(u);
      var after := u[n..];
      if |after| > 0 && after[0] == '.' then
        var m := DigitRunLength(after[1..]);
        var lexeme: Lexeme := t[..sign] + NumberChars(u[..n]) + ['.'] + NumberChars(after[1..][..m]);
        ParseExponent(lexeme, after[1 + m..])
      else
        var magnitude: int := DigitsValue(u[..n]);
        Ok((Num(Int(if sign == 1 then -magnitude else magnitude)), after))
  }

  /** A bare word: tries `true`, then `false`, then `null`, each comparison
      starting where the previous failed one stopped. */
  function ParseKeyword(t: seq<char>): (r: Result<(Value, seq<char>)>)
    requires |t| > 0
    ensures r.Ok? ==> |r.value.1| < |t|
    ensures r.Ok? ==> r.value.0 == Bool(true) || r.value.0 == Bool(false) || r.value.0 == Null
    ensures r.Err? ==> r.error == ParseError("Unexpected identifier")
  {
    var (isTrue, t1) := IsSame(t, "true");
    if isTrue then Ok((Bool(true), t1))
    else
      var (isFalse, t2) := IsSame(t1, "false");
      if isFalse then Ok((Bool(false), t2))
      else
        var (isNull, t3) := IsSame(t2, "null");
        if isNull then Ok((Null, t3))
        else Err(ParseError("Unexpected identifier"))
  }

  predicate SafeMembers(o: map<string, Value>) {
    forall k :: k in o ==> IsRoundTripString(k) && SafeStrings(o[k])
  }

  predicate SafeElements(a: seq<Value>) {
    forall i :: 0 <= i < |a| ==> SafeStrings(a[i])
  }

  lemma SafeMembersInsert(o: map<string, Value>, k: string, v: Value)
    ensures SafeMembers(o) && IsRoundTripString(k) && SafeStrings(v) ==> SafeMembers(o[k := v])
  {
  }

  lemma SafeElementsAppend(a: seq<Value>, v: Value)
    ensures SafeElements(a) && SafeStrings(v) ==> SafeElements(a + [v])
  {
  }

  /** `parseValue`: leading whitespace, then one value. */
  function ParseValue(s: seq<char>): (r: Result<(Value, seq<char>)>)
    ensures r.Err? ==> r.error.ParseError?
    ensures r.Ok? ==> |r.value.1| < |s|
    ensures r.Ok? ==> SafeStrings(r.value.0)
    decreases |s|, 1
  {
    var t := SkipWhitespaces(s);
    if |t| == 0 then Err(ParseError("Unexpected end of data"))
    else if t[0] == '{' then ParseMembers(t[1..], map[], true)
    else if t[0] == '[' then ParseElements(t[1..], [], true)
    else if t[0] == '-' || IsDigit(t[0]) then ParseNumber(t)
    else if t[0] == '"' then
      var p :- ParseString(t);
      Ok((Str(p.0), p.1))
    else ParseKeyword(t)
  }

  /** The members of an object after its `{`, `acc` holding those read so
      far. A `,` is required before every member but the first; a repeated
      key overwrites the earlier one. Text that ends right after a key, where
      the library reads past the end, is a `ParseError` here. */
  function ParseMembers(s: seq<char>, acc: map<string, Value>, first: bool): (r: Result<(Value, seq<char>)>)
    ensures r.Err? ==> r.error.ParseError?
    ensures r.Ok? ==> |r.value.1| < |s|
    ensures r.Ok? && SafeMembers(acc) ==> SafeStrings(r.value.0)
    ensures r.Ok? ==> r.value.0.Obj? && acc.Keys <= r.value.0.o.Keys
    decreases |s|, 0
  {
    var t := SkipWhitespaces(s);
    if |t| == 0 then Err(ParseError("Invalid object"))
    else if t[0] == '}' then Ok((Obj(acc), t[1..]))
    else if !first && t[0] != ',' then Err(ParseError("Invalid object"))
    else
      var u := if first then t else SkipWhitespaces(t[1..]);
      var key :- ParseString(u);
      var c := SkipWhitespaces(key.1);
      if |c| == 0 || c[0] != ':' then Err(ParseError("Invalid object"))
      else
        var member :- ParseValue(SkipWhitespaces(c[1..]));
        SafeMembersInsert(acc, key.0, member.0);
        ParseMembers(member.1, acc[key.0 := member.0], false)
  }

  /** The elements of an array after its `[`, `acc` holding those read so
      far. A `,` is required before every element but the first (its absence
      throws with the message "Invalid object", as the library does). */
  function ParseElements(s: seq<char>, acc: seq<Value>, first: bool): (r: Result<(Value, seq<char>)>)
    ensures r.Err? ==> r.error.ParseError?
    ensures r.Ok? ==> |r.value.1| < |s|
    ensures r.Ok? && SafeElements(acc) ==> SafeStrings(r.value.0)
    ensures r.Ok? ==> r.value.0.Arr?
    decreases |s|, 2
  {
    var t := SkipWhitespaces(s);
    if |t| == 0 then Err(ParseError("Invalid array"))
    else if t[0] == ']' then Ok((Arr(acc), t[1..]))
    else if !first && t[0] != ',' then Err(ParseError("Invalid object"))
    else
      var u := if first then t else SkipWhitespaces(t[1..]);
      var element :- ParseValue(u);
      SafeElementsAppend(acc, element.0);
      ParseElements(element.1, acc + [element.0], false)
  }

  /** `json::parse`: an optional byte-order mark, one value, then nothing but
      whitespace. */
  function Parse(input: seq<char>): (r: Result<Value>)
    ensures r.Ok? ==> SafeStrings(r.value)
    ensures r.Err? ==> r.error.ParseError?
  {
    var s := if HasByteOrderMark(input) then input[3..] else input;
    var p :- ParseValue(s);
    if SkipWhitespaces(p.1) != [] then Err(ParseError("Unexpected data")) else Ok(p.0)
  }
}
