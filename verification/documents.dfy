/** How `json::parse` treats whole documents built around encoded values:
    what may follow the value, and how the malformed containers the
    library's tests exercise are rejected. Each lemma fixes the exact result,
    including the message of the `ParseError`. */
module JsonDocuments {
  import opened JsonErrors
  import opened JsonChars
  import opened JsonValue
  import opened JsonParser
  import opened JsonEncoder
  import opened JsonParserFacts
  import opened JsonRoundTrip

  // ---------------------------------------------------------------------------
  // Encoded pieces inside hand-made text

  /** An encoded value at the start of some text is read back and stops
      exactly where the encoding ends. */
  lemma EncodedValue(v: Value, whitespaces: bool, level: nat, after: seq<char>)
    requires Encodable(v) && Delimits(after)
    ensures var t := Encode(v, whitespaces, level) + after;
      && |t| > 0 && StartsValue(t[0])
      && !IsWhitespace(t[0]) && t[0] != ']' && t[0] != '}' && t[0] != ','
      && SkipWhitespaces(t) == t
      && ParseValue(t) == Ok((v, after))
  {
    var e := Encode(v, whitespaces, level);
    EncodeStart(v, whitespaces, level);
    assert (e + after)[0] == e[0];
    StartsValueNotWhitespace(e[0]);
    NoLeadingWhitespace(e + after);
    ValueRoundTrip(v, whitespaces, level, after);
  }

  /** An encoded key, a colon and an encoded value make one member. */
  lemma EncodedMember(k: string, v: Value, whitespaces: bool, level: nat, after: seq<char>)
    requires IsRoundTripString(k) && Encodable(v) && Delimits(after)
    ensures var s := KeyText(k) + ([':'] + (Encode(v, whitespaces, level) + after));
      && |s| > 0 && s[0] == '"' && s[0] != '}'
      && SkipWhitespaces(s) == s
      && ReadsMember(s, k, v, after)
  {
    var e := Encode(v, whitespaces, level);
    var c := [':'] + (e + after);
    var s := KeyText(k) + c;
    assert s == ['"'] + EscapeString(k) + ['"'] + c;
    StringRoundTrip(k, c);
    NoLeadingWhitespace(s);
    NoLeadingWhitespace(c);
    assert c[1..] == e + after;
    EncodedValue(v, whitespaces, level, after);
  }

  // ---------------------------------------------------------------------------
  // The end of a document

  /** After the value a document may hold whitespace and nothing else:
      anything more is "Unexpected data". */
  lemma DocumentEnd(v: Value, whitespaces: bool, rest: seq<char>)
    requires Encodable(v) && Delimits(rest)
    ensures Parse(Encode(v, whitespaces, 0) + rest)
         == if SkipWhitespaces(rest) == [] then Ok(v) else Err(ParseError("Unexpected data"))
  {
    var t := Encode(v, whitespaces, 0) + rest;
    EncodedValue(v, whitespaces, 0, rest);
    StartsValueNotWhitespace(t[0]);
    assert !HasByteOrderMark(t);
  }

  /** An array opened by `[` and one encoded element: the parser then
      holds that element and looks for a `,` or the `]`. */
  lemma FirstElement(v: Value, whitespaces: bool, level: nat, after: seq<char>)
    requires Encodable(v) && Delimits(after)
    ensures ParseValue(['['] + (Encode(v, whitespaces, level) + after)) == ParseElements(after, [v], false)
  {
    EncodedValue(v, whitespaces, level, after);
    ArrayFirstValue(Encode(v, whitespaces, level) + after, v, after);
  }

  // ---------------------------------------------------------------------------
  // Layout inside containers

  /** Whitespace before text that starts with anything else is skipped
      exactly. */
  lemma SkipLayout(w: seq<char>, t: seq<char>)
    requires AllWhitespace(w) && |t| > 0 && !IsWhitespace(t[0])
    ensures SkipWhitespaces(w + t) == t
  {
    SkipWhitespacePrefix(w, t);
    NoLeadingWhitespace(t);
  }

  /** A plain key, whitespace, `:`, whitespace and a value form a member:
      whitespace is allowed on both sides of the colon. */
  lemma MemberRead(k: string, w1: seq<char>, w2: seq<char>, vt: seq<char>, v: Value, after: seq<char>)
    requires IsPlain(k) && AllWhitespace(w1) && AllWhitespace(w2)
    requires |vt| > 0 && !IsWhitespace(vt[0])
    requires ParseValue(vt) == Ok((v, after))
    ensures ReadsMember(['"'] + k + (['"'] + (w1 + ([':'] + (w2 + vt)))), k, v, after)
  {
    var colon := [':'] + (w2 + vt);
    StringLiteral(k, w1 + colon);
    SkipLayout(w1, colon);
    assert colon[1..] == w2 + vt;
    SkipLayout(w2, vt);
  }

  /** Whitespace, `,`, whitespace, then text that starts with anything
      else: skipping, dropping the comma and skipping again reaches that
      text. */
  lemma CommaLayout(s: seq<char>, w0: seq<char>, w1: seq<char>, t: seq<char>)
    requires s == w0 + ([','] + (w1 + t))
    requires AllWhitespace(w0) && AllWhitespace(w1) && |t| > 0 && !IsWhitespace(t[0])
    ensures |SkipWhitespaces(s)| > 0 && SkipWhitespaces(s)[0] == ','
    ensures SkipWhitespaces(SkipWhitespaces(s)[1..]) == t
  {
    var comma := [','] + (w1 + t);
    SkipLayout(w0, comma);
    assert comma[1..] == w1 + t;
    SkipLayout(w1, t);
  }

  /** Whitespace, `,`, whitespace and a value append that value to the
      array. */
  lemma ElementAfterComma(s: seq<char>, w0: seq<char>, w1: seq<char>, vt: seq<char>, acc: seq<Value>, v: Value, after: seq<char>)
    requires s == w0 + ([','] + (w1 + vt))
    requires AllWhitespace(w0) && AllWhitespace(w1)
    requires |vt| > 0 && !IsWhitespace(vt[0])
    requires ParseValue(vt) == Ok((v, after))
    ensures ParseElements(s, acc, false) == ParseElements(after, acc + [v], false)
  {
    CommaLayout(s, w0, w1, vt);
    ElementsCommaTo(s, vt, acc, v, after);
  }

  /** An object opened by `{` whose first member has a plain string value,
      with layout on both sides of the colon. */
  lemma StringFirstMember(t: seq<char>, k: string, w1: seq<char>, w2: seq<char>, p: string, after: seq<char>)
    requires IsPlain(k) && IsPlain(p) && AllWhitespace(w1) && AllWhitespace(w2)
    requires t == ['{'] + (['"'] + k + (['"'] + (w1 + ([':'] + (w2 + (['"'] + p + (['"'] + after)))))))
    ensures ParseValue(t) == ParseMembers(after, map[k := Str(p)], false)
  {
    var vt := ['"'] + p + (['"'] + after);
    var mt := ['"'] + k + (['"'] + (w1 + ([':'] + (w2 + vt))));
    StringLiteral(p, after);
    ValueReadsString(vt, p, after);
    MemberRead(k, w1, w2, vt, Str(p), after);
    ValueOpensObject(t);
    assert t[1..] == mt;
    NoLeadingWhitespace(mt);
    MembersFirstStep(mt, map[], k, Str(p), after);
  }

  /** A member right after a comma, with layout after the comma and around
      the colon. */
  lemma MemberTextAfterComma(s: seq<char>, w1: seq<char>, k: string, w2: seq<char>, w3: seq<char>,
                             vt: seq<char>, v: Value, acc: map<string, Value>, after: seq<char>)
    requires IsPlain(k) && AllWhitespace(w1) && AllWhitespace(w2) && AllWhitespace(w3)
    requires |vt| > 0 && !IsWhitespace(vt[0])
    requires ParseValue(vt) == Ok((v, after))
    requires s == [','] + (w1 + (['"'] + k + (['"'] + (w2 + ([':'] + (w3 + vt))))))
    ensures ParseMembers(s, acc, false) == ParseMembers(after, acc[k := v], false)
  {
    var mt := ['"'] + k + (['"'] + (w2 + ([':'] + (w3 + vt))));
    MemberRead(k, w2, w3, vt, v, after);
    SkipLayout(w1, mt);
    assert s[1..] == w1 + mt;
    MembersNextStep(s, acc, k, v, after);
  }

  /** An array opened by `[` whose first element is a one-digit integer. */
  lemma DigitFirstElement(t: seq<char>, d: char, after: seq<char>)
    requires t == ['['] + ([d] + after) && IsDigit(d)
    requires |after| > 0 && !IsDigit(after[0]) && after[0] != '.'
    ensures ParseValue(t) == ParseElements(after, [Num(Int(DigitValue(d)))], false)
  {
    IntegerText([d], after);
    ArrayFirstValue([d] + after, Num(Int(DigitValue(d))), after);
  }

  /** A one-digit integer after a comma, with layout around the comma. */
  lemma DigitAfterComma(s: seq<char>, w0: seq<char>, w1: seq<char>, d: char, acc: seq<Value>, after: seq<char>)
    requires s == w0 + ([','] + (w1 + ([d] + after)))
    requires AllWhitespace(w0) && AllWhitespace(w1) && IsDigit(d)
    requires |after| > 0 && !IsDigit(after[0]) && after[0] != '.'
    ensures ParseElements(s, acc, false) == ParseElements(after, acc + [Num(Int(DigitValue(d)))], false)
  {
    IntegerText([d], after);
    ElementAfterComma(s, w0, w1, [d] + after, acc, Num(Int(DigitValue(d))), after);
  }

  /** One digit followed by a delimiter is that integer. */
  lemma IntegerText(ds: seq<char>, after: seq<char>)
    requires |ds| == 1 && IsDigit(ds[0])
    requires |after| > 0 && !IsDigit(after[0]) && after[0] != '.'
    ensures ParseValue(ds + after) == Ok((Num(Int(DigitValue(ds[0]))), after))
  {
    assert (ds + after)[0] == ds[0];
    ValueReadsNumber(ds + after);
    UnsignedLiteral(ds, after);
    OneDigit(ds);
  }

  lemma OneDigit(ds: seq<char>)
    requires |ds| == 1 && IsDigit(ds[0])
    ensures DigitsValue(ds) == DigitValue(ds[0])
  {
    assert ds[..0] == [];
  }

  /** `{}` after a comma, with layout around the comma. */
  lemma EmptyObjectAfterComma(s: seq<char>, w0: seq<char>, w1: seq<char>, t: seq<char>, acc: seq<Value>)
    requires s == w0 + ([','] + (w1 + t))
    requires AllWhitespace(w0) && AllWhitespace(w1)
    requires |t| >= 2 && t[0] == '{' && t[1] == '}'
    ensures ParseElements(s, acc, false) == ParseElements(t[2..], acc + [Obj(map[])], false)
  {
    ObjectOpenClose(t);
    ElementAfterComma(s, w0, w1, t, acc, Obj(map[]), t[2..]);
  }

  /** `""` after a comma, with layout around the comma. */
  lemma EmptyStringAfterComma(s: seq<char>, w0: seq<char>, w1: seq<char>, t: seq<char>, acc: seq<Value>)
    requires s == w0 + ([','] + (w1 + t))
    requires AllWhitespace(w0) && AllWhitespace(w1)
    requires |t| >= 2 && t[0] == '"' && t[1] == '"'
    ensures ParseElements(s, acc, false) == ParseElements(t[2..], acc + [Str([])], false)
  {
    assert t == ['"'] + [] + (['"'] + t[2..]);
    StringLiteral([], t[2..]);
    ValueReadsString(t, [], t[2..]);
    ElementAfterComma(s, w0, w1, t, acc, Str([]), t[2..]);
  }

  lemma ArrayFirstValue(s: seq<char>, v: Value, after: seq<char>)
    requires |s| > 0 && !IsWhitespace(s[0]) && s[0] != ']'
    requires ParseValue(s) == Ok((v, after))
    ensures ParseValue(['['] + s) == ParseElements(after, [v], false)
  {
    var t := ['['] + s;
    ValueOpensArray(t);
    assert t[1..] == s;
    NoLeadingWhitespace(s);
    ElementsFirstStep(s, [], v, after);
    assert [] + [v] == [v];
  }

  /** An object opened by `{` and one encoded member: the parser then holds
      that member and looks for a `,` or the `}`. */
  lemma FirstMember(k: string, v: Value, whitespaces: bool, level: nat, after: seq<char>)
    requires IsRoundTripString(k) && Encodable(v) && Delimits(after)
    ensures ParseValue(['{'] + (KeyText(k) + ([':'] + (Encode(v, whitespaces, level) + after))))
         == ParseMembers(after, map[k := v], false)
  {
    var s := KeyText(k) + ([':'] + (Encode(v, whitespaces, level) + after));
    var t := ['{'] + s;
    EncodedMember(k, v, whitespaces, level, after);
    ValueOpensObject(t);
    assert t[1..] == s;
    MembersFirstStep(s, map[], k, v, after);
  }

  // ---------------------------------------------------------------------------
  // Malformed arrays

  /** `[` followed by nothing but whitespace. */
  lemma ArrayOpenedOnly(ws: seq<char>)
    requires AllWhitespace(ws)
    ensures ParseValue(['['] + ws) == Err(ParseError("Invalid array"))
  {
    var t := ['['] + ws;
    ValueOpensArray(t);
    assert t[1..] == ws;
    SkipAllWhitespace(ws);
    ElementsUnclosed(ws, [], true);
  }

  /** `[x` followed by nothing but whitespace. */
  lemma UnclosedArray(v: Value, whitespaces: bool, level: nat, ws: seq<char>)
    requires Encodable(v) && AllWhitespace(ws)
    ensures ParseValue(['['] + (Encode(v, whitespaces, level) + ws)) == Err(ParseError("Invalid array"))
  {
    assert ws == [] || IsWhitespace(ws[0]);
    FirstElement(v, whitespaces, level, ws);
    SkipAllWhitespace(ws);
    ElementsUnclosed(ws, [v], false);
  }

  /** `[x,]`: a comma must be followed by another element. The `]` after it
      is taken for the start of a bare word and rejected as one. */
  lemma TrailingCommaInArray(v: Value, whitespaces: bool, level: nat, rest: seq<char>)
    requires Encodable(v)
    ensures ParseValue(['['] + (Encode(v, whitespaces, level) + ([','] + ([']'] + rest))))
         == Err(ParseError("Unexpected identifier"))
  {
    FirstElement(v, whitespaces, level, [','] + ([']'] + rest));
    CommaThenBracket([v], rest);
  }

  lemma CommaThenBracket(acc: seq<Value>, rest: seq<char>)
    ensures ParseElements([','] + ([']'] + rest), acc, false) == Err(ParseError("Unexpected identifier"))
  {
    var close := [']'] + rest;
    var after := [','] + close;
    NoLeadingWhitespace(after);
    assert after[1..] == close;
    NoLeadingWhitespace(close);
    NoValueStart(close);
    ElementsCommaError(after, acc, ParseError("Unexpected identifier"));
  }

  /** `[x y]`: after an element, anything but `,` or `]` is rejected, with
      the message "Invalid object" that the library uses for arrays too. */
  lemma MissingCommaInArray(v: Value, whitespaces: bool, level: nat, rest: seq<char>)
    requires Encodable(v) && Delimits(rest)
    requires |SkipWhitespaces(rest)| > 0
    requires SkipWhitespaces(rest)[0] != ']' && SkipWhitespaces(rest)[0] != ','
    ensures ParseValue(['['] + (Encode(v, whitespaces, level) + rest)) == Err(ParseError("Invalid object"))
  {
    FirstElement(v, whitespaces, level, rest);
    ElementsMissingComma(rest, [v]);
  }

  // ---------------------------------------------------------------------------
  // Malformed objects

  /** `{` followed by nothing but whitespace. */
  lemma ObjectOpenedOnly(ws: seq<char>)
    requires AllWhitespace(ws)
    ensures ParseValue(['{'] + ws) == Err(ParseError("Invalid object"))
  {
    var t := ['{'] + ws;
    ValueOpensObject(t);
    assert t[1..] == ws;
    SkipAllWhitespace(ws);
    MembersUnclosed(ws, map[], true);
  }

  /** `{"k"` followed by anything but a colon, including nothing at all
      (where the library reads past the end of the text). */
  lemma KeyWithoutValue(k: string, rest: seq<char>)
    requires IsRoundTripString(k)
    requires SkipWhitespaces(rest) == [] || SkipWhitespaces(rest)[0] != ':'
    ensures ParseValue(['{'] + (KeyText(k) + rest)) == Err(ParseError("Invalid object"))
  {
    var s := KeyText(k) + rest;
    var t := ['{'] + s;
    assert s == ['"'] + EscapeString(k) + ['"'] + rest;
    StringRoundTrip(k, rest);
    NoLeadingWhitespace(s);
    ValueOpensObject(t);
    assert t[1..] == s;
    MembersMissingColon(s, map[], k, rest);
  }

  /** `{"k":x` followed by nothing but whitespace. */
  lemma UnclosedObject(k: string, v: Value, whitespaces: bool, level: nat, ws: seq<char>)
    requires IsRoundTripString(k) && Encodable(v) && AllWhitespace(ws)
    ensures ParseValue(['{'] + (KeyText(k) + ([':'] + (Encode(v, whitespaces, level) + ws))))
         == Err(ParseError("Invalid object"))
  {
    assert ws == [] || IsWhitespace(ws[0]);
    FirstMember(k, v, whitespaces, level, ws);
    SkipAllWhitespace(ws);
    MembersUnclosed(ws, map[k := v], false);
  }

  /** `{"k":x,}`: a comma must be followed by another key. */
  lemma TrailingCommaInObject(k: string, v: Value, whitespaces: bool, level: nat, rest: seq<char>)
    requires IsRoundTripString(k) && Encodable(v)
    ensures ParseValue(['{'] + (KeyText(k) + ([':'] + (Encode(v, whitespaces, level) + ([','] + (['}'] + rest))))))
         == Err(ParseError("Invalid string"))
  {
    FirstMember(k, v, whitespaces, level, [','] + (['}'] + rest));
    CommaThenBrace(map[k := v], rest);
  }

  lemma CommaThenBrace(acc: map<string, Value>, rest: seq<char>)
    ensures ParseMembers([','] + (['}'] + rest), acc, false) == Err(ParseError("Invalid string"))
  {
    var close := ['}'] + rest;
    var after := [','] + close;
    NoLeadingWhitespace(after);
    assert after[1..] == close;
    NoLeadingWhitespace(close);
    MembersCommaError(after, acc, ParseError("Invalid string"));
  }

  /** `{"k":x y}`: after a member, anything but `,` or `}` is rejected. */
  lemma MissingCommaInObject(k: string, v: Value, whitespaces: bool, level: nat, rest: seq<char>)
    requires IsRoundTripString(k) && Encodable(v) && Delimits(rest)
    requires |SkipWhitespaces(rest)| > 0
    requires SkipWhitespaces(rest)[0] != '}' && SkipWhitespaces(rest)[0] != ','
    ensures ParseValue(['{'] + (KeyText(k) + ([':'] + (Encode(v, whitespaces, level) + rest))))
         == Err(ParseError("Invalid object"))
  {
    FirstMember(k, v, whitespaces, level, rest);
    MembersMissingComma(rest, map[k := v]);
  }

  /** `{"k":x,"k":y}`: a repeated key is accepted, and the later value
      replaces the earlier one. */
  lemma DuplicateKey(k: string, x: Value, y: Value, whitespaces: bool, level: nat, rest: seq<char>)
    requires IsRoundTripString(k) && Encodable(x) && Encodable(y)
    ensures ParseValue(['{'] + (KeyText(k) + ([':'] + (Encode(x, whitespaces, level)
              + ([','] + (KeyText(k) + ([':'] + (Encode(y, whitespaces, level) + (['}'] + rest)))))))))
         == Ok((Obj(map[k := y]), rest))
  {
    var after := [','] + (KeyText(k) + ([':'] + (Encode(y, whitespaces, level) + (['}'] + rest))));
    FirstMember(k, x, whitespaces, level, after);
    LastMember(map[k := x], k, y, whitespaces, level, rest);
    Overwrite(k, x, y);
  }

  lemma Overwrite(k: string, x: Value, y: Value)
    ensures map[k := x][k := y] == map[k := y]
  {
  }

  /** A `,`, one more member and the closing `}`. */
  lemma LastMember(acc: map<string, Value>, k: string, v: Value, whitespaces: bool, level: nat, rest: seq<char>)
    requires IsRoundTripString(k) && Encodable(v)
    ensures ParseMembers([','] + (KeyText(k) + ([':'] + (Encode(v, whitespaces, level) + (['}'] + rest)))), acc, false)
         == Ok((Obj(acc[k := v]), rest))
  {
    var close := ['}'] + rest;
    var member := KeyText(k) + ([':'] + (Encode(v, whitespaces, level) + close));
    var after := [','] + member;
    EncodedMember(k, v, whitespaces, level, close);
    assert after[1..] == member;
    MembersNextStep(after, acc, k, v, close);
    MembersCloseNow(close, acc[k := v], false);
    assert close[1..] == rest;
  }
}
