/** Every document that the library's own test suite (test/tests.cpp)
    parses, each with the exact result `json::parse` gives for it, and the
    parts of its encoding test that do not depend on `double` formatting. */
module JsonExamples {
  import opened JsonErrors
  import opened JsonChars
  import opened JsonValue
  import opened JsonParser
  import opened JsonEncoder
  import opened JsonParserFacts
  import opened JsonRoundTrip
  import opened JsonDocuments
  import opened KeyOrder

  /** A document that holds one value and then only whitespace. */
  lemma WholeDocument(t: seq<char>, v: Value, rest: seq<char>)
    requires |t| > 0 && t[0] != BOM[0]
    requires ParseValue(t) == Ok((v, rest))
    requires AllWhitespace(rest)
    ensures Parse(t) == Ok(v)
  {
    SkipAllWhitespace(rest);
  }

  /** A string literal of plain bytes as a value. */
  lemma PlainStringValue(p: seq<char>, rest: seq<char>)
    requires IsPlain(p)
    ensures ParseValue(['"'] + p + (['"'] + rest)) == Ok((Str(p), rest))
  {
    StringLiteral(p, rest);
    ValueReadsString(['"'] + p + (['"'] + rest), p, rest);
  }

  /** An unsigned integer literal as a value. */
  lemma IntegerValue(ds: seq<char>, rest: seq<char>)
    requires |ds| > 0 && AllDigits(ds)
    requires rest == [] || (!IsDigit(rest[0]) && rest[0] != '.')
    ensures ParseValue(ds + rest) == Ok((Num(Int(DigitsValue(ds))), rest))
  {
    assert (ds + rest)[0] == ds[0];
    ValueReadsNumber(ds + rest);
    UnsignedLiteral(ds, rest);
  }

  /** `{}` as a value. */
  lemma EmptyObjectValue(rest: seq<char>)
    ensures ParseValue(['{', '}'] + rest) == Ok((Obj(map[]), rest))
  {
    var t := ['{', '}'] + rest;
    assert t[2..] == rest;
    ObjectOpenClose(t);
  }

  /** `[]` as a value. */
  lemma EmptyArrayValue(rest: seq<char>)
    ensures ParseValue(['[', ']'] + rest) == Ok((Arr([]), rest))
  {
    var t := ['[', ']'] + rest;
    assert t[2..] == rest;
    ArrayOpenClose(t);
  }

  // ---------------------------------------------------------------------------
  // Scalars

  lemma NullDocument()
    ensures Parse("null") == Ok(Null)
  {
    TruncatedKeyword("null", Null, 4);
    assert "null"[..4] == "null";
  }

  lemma FalseDocument()
    ensures Parse("false") == Ok(Bool(false))
  {
    TruncatedKeyword("false", Bool(false), 5);
    assert "false"[..5] == "false";
  }

  lemma IntegerDocument()
    ensures Parse("10") == Ok(Num(Int(10)))
  {
    IntegerValue("10", []);
    assert "10" + [] == "10";
    WholeDocument("10", Num(Int(10)), []);
  }

  /** A document that is just a fraction. */
  lemma FractionText(ds: seq<char>, fs: seq<char>)
    requires |ds| > 0 && AllDigits(ds) && AllDigits(fs)
    ensures Parse(ds + (['.'] + fs)) == Ok(Num(Frac(NumberLexeme(false, ds, fs))))
  {
    var t := ds + (['.'] + fs);
    FractionLiteral(false, ds, fs, []);
    assert Sign(false) + (ds + (['.'] + (fs + []))) == t;
    assert t[0] == ds[0];
    ValueReadsNumber(t);
    WholeDocument(t, Num(Frac(NumberLexeme(false, ds, fs))), []);
  }

  /** A document that is just a fraction with an unsigned exponent. */
  lemma ExponentText(ds: seq<char>, fs: seq<char>, es: seq<char>)
    requires |ds| > 0 && AllDigits(ds) && AllDigits(fs) && |es| > 0 && AllDigits(es)
    ensures Parse(ds + (['.'] + (fs + (['e'] + es))))
         == Ok(Num(Frac(NumberLexeme(false, ds, fs) + (['e'] + es))))
  {
    var t := ds + (['.'] + (fs + (['e'] + es)));
    ExponentLiteral(false, ds, fs, 'e', [], es, []);
    ExponentSpelling(ds, fs, es);
    assert t[0] == ds[0];
    ValueReadsNumber(t);
    WholeDocument(t, ParseValue(t).value.0, []);
  }

  lemma ExponentSpelling(ds: seq<char>, fs: seq<char>, es: seq<char>)
    ensures Sign(false) + (ds + (['.'] + (fs + (['e'] + ([] + (es + [])))))) == ds + (['.'] + (fs + (['e'] + es)))
    ensures Sign(false) + ds + ['.'] + fs + (['e'] + [] + es) == Sign(false) + ds + ['.'] + fs + (['e'] + es)
  {
    assert es + [] == es;
    assert [] + es == es;
    assert ['e'] + [] == ['e'];
    assert Sign(false) == [];
  }

  /** A fractional number keeps its lexeme; `0.5` stands for the double 0.5. */
  lemma FractionDocument()
    ensures Parse("0.5") == Ok(Num(Frac("0.5")))
  {
    FractionText("0", "5");
    HalfSpelling();
  }

  lemma HalfSpelling()
    ensures "0" + (['.'] + "5") == "0.5"
    ensures NumberLexeme(false, "0", "5") == "0.5"
  {
  }

  /** An exponent after a fraction; `0.1e1` stands for the double 1.0. */
  lemma ExponentDocument()
    ensures Parse("0.1e1") == Ok(Num(Frac("0.1e1")))
  {
    ExponentText("0", "1", "1");
    TenthTimesTenSpelling();
  }

  lemma TenthTimesTenSpelling()
    ensures "0" + (['.'] + ("1" + (['e'] + "1"))) == "0.1e1"
    ensures NumberLexeme(false, "0", "1") + (['e'] + "1") == "0.1e1"
  {
  }

  lemma EmptyStringDocument()
    ensures Parse("\"\"") == Ok(Str(""))
  {
    QuotedText([]);
    assert ['"'] + [] + ['"'] == "\"\"";
  }

  /** A document that is just a string of plain bytes. */
  lemma QuotedText(p: seq<char>)
    requires IsPlain(p)
    ensures Parse(['"'] + p + ['"']) == Ok(Str(p))
  {
    PlainStringValue(p, []);
    assert ['"'] + p + (['"'] + []) == ['"'] + p + ['"'];
    WholeDocument(['"'] + p + ['"'], Str(p), []);
  }

  /** The bytes of "ē–" in UTF-8 are copied as they are. */
  lemma Utf8Document()
    ensures var bytes := [0xC4 as char, 0x93 as char, 0xE2 as char, 0x80 as char, 0x93 as char];
      Parse(['"'] + bytes + ['"']) == Ok(Str(bytes))
  {
    QuotedText([0xC4 as char, 0x93 as char, 0xE2 as char, 0x80 as char, 0x93 as char]);
  }

  /** The five short escapes of control bytes. */
  lemma EscapeDocument()
    ensures Parse("\"\\b\\f\\n\\r\\t\"") == Ok(Str([Backspace, FormFeed, '\n', '\r', '\t']))
  {
    var s := [Backspace, FormFeed, '\n', '\r', '\t'];
    var text := ['"'] + EscapeString(s) + ['"'] + [];
    EscapeControls();
    StringRoundTrip(s, []);
    ValueReadsString(text, s, []);
    WholeDocument(text, Str(s), []);
    EscapeSpelling();
  }

  lemma EscapeSpelling()
    ensures ['"'] + "\\b\\f\\n\\r\\t" + ['"'] + [] == "\"\\b\\f\\n\\r\\t\""
  {
  }

  lemma EscapeControls()
    ensures EscapeString([Backspace, FormFeed, '\n', '\r', '\t']) == "\\b\\f\\n\\r\\t"
  {
    var s5 := ['\t'];
    var s4 := ['\r'] + s5;
    var s3 := ['\n'] + s4;
    var s2 := [FormFeed] + s3;
    var s1 := [Backspace] + s2;
    assert s5[1..] == [];
    assert EscapeString(s5) == "\\t";
    assert s4[1..] == s5;
    assert EscapeString(s4) == "\\r\\t";
    assert s3[1..] == s4;
    assert EscapeString(s3) == "\\n\\r\\t";
    assert s2[1..] == s3;
    assert EscapeString(s2) == "\\f\\n\\r\\t";
    assert s1[1..] == s2;
    assert s1 == [Backspace, FormFeed, '\n', '\r', '\t'];
  }

  // ---------------------------------------------------------------------------
  // Containers

  lemma EmptyObjectDocument()
    ensures Parse("{}") == Ok(Obj(map[]))
  {
    EmptyObjectValue([]);
    assert ['{', '}'] + [] == "{}";
    WholeDocument("{}", Obj(map[]), []);
  }

  lemma EmptyArrayDocument()
    ensures Parse("[]") == Ok(Arr([]))
  {
    EmptyArrayValue([]);
    assert ['[', ']'] + [] == "[]";
    WholeDocument("[]", Arr([]), []);
  }

  /** A document whose value is rejected is rejected with the same error. */
  lemma RejectedDocument(t: seq<char>, e: Error)
    requires |t| > 0 && t[0] != BOM[0]
    requires ParseValue(t) == Err(e)
    ensures Parse(t) == Err(e)
  {
  }

  /** An object that is never closed. */
  lemma BraceErrorDocument()
    ensures Parse("{") == Err(ParseError("Invalid object"))
  {
    ObjectOpenedOnly([]);
    assert ['{'] + [] == "{";
    RejectedDocument("{", ParseError("Invalid object"));
  }

  /** A key with no colon and no value. */
  lemma ObjectErrorDocument()
    ensures Parse("{\"\"}") == Err(ParseError("Invalid object"))
  {
    NoLeadingWhitespace("}");
    KeyWithoutValue([], "}");
    assert ['{'] + (KeyText([]) + "}") == "{\"\"}";
    RejectedDocument("{\"\"}", ParseError("Invalid object"));
  }

  // ---------------------------------------------------------------------------
  // Containers with layout

  /** `[1, 2 ]`, as it appears inside the object test document, followed by
      `rest`. */
  function PairText(rest: seq<char>): seq<char> {
    ['['] + (['1'] + PairTailText(rest))
  }

  /** What follows the `1` in `[1, 2 ]`. */
  function PairTailText(rest: seq<char>): seq<char> {
    [] + ([','] + (" " + (['2'] + (" " + ([']'] + rest)))))
  }

  lemma PairArrayValue(rest: seq<char>)
    ensures ParseValue(PairText(rest)) == Ok((Arr([Num(Int(1)), Num(Int(2))]), rest))
  {
    DigitFirstElement(PairText(rest), '1', PairTailText(rest));
    PairTail(rest, [Num(Int(DigitValue('1')))]);
    PairElements();
  }

  lemma PairElements()
    ensures [Num(Int(DigitValue('1')))] + [Num(Int(DigitValue('2')))] == [Num(Int(1)), Num(Int(2))]
  {
  }

  lemma PairTail(rest: seq<char>, acc: seq<Value>)
    ensures ParseElements(PairTailText(rest), acc, false) == Ok((Arr(acc + [Num(Int(DigitValue('2')))]), rest))
  {
    var close := " " + ([']'] + rest);
    DigitAfterComma(PairTailText(rest), [], " ", '2', acc, close);
    SkipLayout(" ", [']'] + rest);
    ElementsClose(close, acc + [Num(Int(DigitValue('2')))], false, rest);
  }

  /** `{"x"\r: "y"}`, with a carriage return before the colon, followed by
      `rest`. */
  function InnerText(rest: seq<char>): seq<char> {
    ['{'] + (['"'] + "x" + (['"'] + ("\r" + ([':'] + (" " + (['"'] + "y" + (['"'] + (['}'] + rest))))))))
  }

  lemma InnerObjectValue(rest: seq<char>)
    ensures ParseValue(InnerText(rest)) == Ok((Obj(map["x" := Str("y")]), rest))
  {
    var close := ['}'] + rest;
    StringFirstMember(InnerText(rest), "x", "\r", " ", "y", close);
    MembersCloseNow(close, map["x" := Str("y")], false);
    assert close[1..] == rest;
  }

  /** The object test document, followed by `rest`. */
  function ObjectDocumentText(rest: seq<char>): seq<char> {
    ['{'] + (['"'] + "a" + (['"'] + (" " + ([':'] + (" " + (['"'] + "b" + (['"'] + SecondMemberText(rest))))))))
  }

  /** `, "c": [1, 2 ]` and what follows it. */
  function SecondMemberText(rest: seq<char>): seq<char> {
    [','] + (" " + (['"'] + "c" + (['"'] + ([] + ([':'] + (" " + PairText(LastMemberText(rest))))))))
  }

  /** `, "d": {"x"\r: "y"} }` and then `rest`. */
  function LastMemberText(rest: seq<char>): seq<char> {
    [','] + (" " + (['"'] + "d" + (['"'] + ([] + ([':'] + (" " + InnerText(" " + (['}'] + rest))))))))
  }

  lemma ObjectDocumentValue(rest: seq<char>)
    ensures ParseValue(ObjectDocumentText(rest))
         == Ok((Obj(map["a" := Str("b"), "c" := Arr([Num(Int(1)), Num(Int(2))]), "d" := Obj(map["x" := Str("y")])]), rest))
  {
    StringFirstMember(ObjectDocumentText(rest), "a", " ", " ", "b", SecondMemberText(rest));
    SecondMember(rest, map["a" := Str("b")]);
  }

  lemma SecondMember(rest: seq<char>, acc: map<string, Value>)
    ensures ParseMembers(SecondMemberText(rest), acc, false)
         == Ok((Obj(acc["c" := Arr([Num(Int(1)), Num(Int(2))])]["d" := Obj(map["x" := Str("y")])]), rest))
  {
    var arr := Arr([Num(Int(1)), Num(Int(2))]);
    PairArrayValue(LastMemberText(rest));
    MemberTextAfterComma(SecondMemberText(rest), " ", "c", [], " ", PairText(LastMemberText(rest)), arr, acc, LastMemberText(rest));
    LastMember(rest, acc["c" := arr]);
  }

  lemma LastMember(rest: seq<char>, acc: map<string, Value>)
    ensures ParseMembers(LastMemberText(rest), acc, false) == Ok((Obj(acc["d" := Obj(map["x" := Str("y")])]), rest))
  {
    var xy := Obj(map["x" := Str("y")]);
    var close := " " + (['}'] + rest);
    InnerObjectValue(close);
    MemberTextAfterComma(LastMemberText(rest), " ", "d", [], " ", InnerText(close), xy, acc, close);
    SkipLayout(" ", ['}'] + rest);
    MembersClose(close, acc["d" := xy], false, rest);
  }

  lemma ObjectDocumentSpelling()
    ensures ObjectDocumentText([]) == "{\"a\" : \"b\", \"c\": [1, 2 ], \"d\": {\"x\"\r: \"y\"} }"
  {
    var s3 := " " + (['}'] + []);
    var s2 := LastMemberText([]);
    var s1 := SecondMemberText([]);
    assert s3 == " }";
    InnerSpelling(s3);
    KeySpelling("d", InnerText(s3));
    PairSpelling(s2);
    KeySpelling("c", PairText(s2));
    HeadSpelling(s1);
    ObjectDocumentPieces();
  }

  lemma InnerSpelling(x: seq<char>)
    ensures InnerText(x) == "{\"x\"\r: \"y\"}" + x
  {
  }

  lemma PairSpelling(x: seq<char>)
    ensures PairText(x) == "[1, 2 ]" + x
  {
    assert PairTailText(x) == ", 2 ]" + x;
  }

  /** `, "k": ` for a one-byte key `k`. */
  lemma KeySpelling(k: string, x: seq<char>)
    requires |k| == 1
    ensures [','] + (" " + (['"'] + k + (['"'] + ([] + ([':'] + (" " + x))))))
         == [',', ' ', '"', k[0], '"', ':', ' '] + x
  {
  }

  lemma HeadSpelling(x: seq<char>)
    ensures ['{'] + (['"'] + "a" + (['"'] + (" " + ([':'] + (" " + (['"'] + "b" + (['"'] + x)))))))
         == "{\"a\" : \"b\"" + x
  {
  }

  lemma ObjectDocumentPieces()
    ensures "{\"a\" : \"b\"" + ([',', ' ', '"', 'c', '"', ':', ' '] + ("[1, 2 ]"
              + ([',', ' ', '"', 'd', '"', ':', ' '] + ("{\"x\"\r: \"y\"}" + " }"))))
         == "{\"a\" : \"b\", \"c\": [1, 2 ], \"d\": {\"x\"\r: \"y\"} }"
  {
  }

  /** The object test document: whitespace, including a carriage return, is
      allowed before a colon and around commas. */
  lemma ObjectDocument()
    ensures Parse("{\"a\" : \"b\", \"c\": [1, 2 ], \"d\": {\"x\"\r: \"y\"} }")
         == Ok(Obj(map["a" := Str("b"), "c" := Arr([Num(Int(1)), Num(Int(2))]), "d" := Obj(map["x" := Str("y")])]))
  {
    ObjectDocumentValue([]);
    ObjectDocumentSpelling();
    WholeDocument(ObjectDocumentText([]),
      Obj(map["a" := Str("b"), "c" := Arr([Num(Int(1)), Num(Int(2))]), "d" := Obj(map["x" := Str("y")])]), []);
  }

  /** The array test document, followed by `rest`. */
  function ArrayDocumentText(rest: seq<char>): seq<char> {
    ['['] + (['1'] + ([] + ([','] + (" " + (['2'] + ArrayObjectText(rest))))))
  }

  /** `\t , {}` and what follows it. */
  function ArrayObjectText(rest: seq<char>): seq<char> {
    "\t " + ([','] + (" " + (['{', '}'] + ArrayStringText(rest))))
  }

  /** `\n, ""]` and then `rest`. */
  function ArrayStringText(rest: seq<char>): seq<char> {
    "\n" + ([','] + (" " + (['"', '"'] + ([']'] + rest))))
  }

  lemma ArrayDocumentValue(rest: seq<char>)
    ensures ParseValue(ArrayDocumentText(rest)) == Ok((Arr([Num(Int(1)), Num(Int(2)), Obj(map[]), Str("")]), rest))
  {
    var s1 := [] + ([','] + (" " + (['2'] + ArrayObjectText(rest))));
    var one := [Num(Int(DigitValue('1')))];
    var two := one + [Num(Int(DigitValue('2')))];
    DigitFirstElement(ArrayDocumentText(rest), '1', s1);
    DigitAfterComma(s1, [], " ", '2', one, ArrayObjectText(rest));
    ArrayObject(rest, two);
    ArrayDocumentElements();
  }

  lemma ArrayDocumentElements()
    ensures [Num(Int(DigitValue('1')))] + [Num(Int(DigitValue('2')))] + [Obj(map[])] + [Str("")]
         == [Num(Int(1)), Num(Int(2)), Obj(map[]), Str("")]
  {
  }

  lemma ArrayObject(rest: seq<char>, acc: seq<Value>)
    ensures ParseElements(ArrayObjectText(rest), acc, false) == Ok((Arr(acc + [Obj(map[])] + [Str("")]), rest))
  {
    var t := ['{', '}'] + ArrayStringText(rest);
    assert t[2..] == ArrayStringText(rest);
    EmptyObjectAfterComma(ArrayObjectText(rest), "\t ", " ", t, acc);
    ArrayString(rest, acc + [Obj(map[])]);
  }

  lemma ArrayString(rest: seq<char>, acc: seq<Value>)
    ensures ParseElements(ArrayStringText(rest), acc, false) == Ok((Arr(acc + [Str("")]), rest))
  {
    var t := ['"', '"'] + ([']'] + rest);
    var close := [']'] + rest;
    assert t[2..] == close;
    EmptyStringAfterComma(ArrayStringText(rest), "\n", " ", t, acc);
    ElementsCloseNow(close, acc + [Str([])], false);
    assert close[1..] == rest;
  }

  lemma ArrayDocumentSpelling()
    ensures ArrayDocumentText([]) == "[1, 2\t , {}\n, \"\"]"
  {
    assert ArrayStringText([]) == "\n, \"\"]";
    assert ArrayObjectText([]) == "\t , {}\n, \"\"]";
  }

  /** The array test document: whitespace, including a tab and a newline,
      is allowed around commas. */
  lemma ArrayDocument()
    ensures Parse("[1, 2\t , {}\n, \"\"]") == Ok(Arr([Num(Int(1)), Num(Int(2)), Obj(map[]), Str("")]))
  {
    ArrayDocumentValue([]);
    ArrayDocumentSpelling();
    WholeDocument(ArrayDocumentText([]), Arr([Num(Int(1)), Num(Int(2)), Obj(map[]), Str("")]), []);
  }

  // ---------------------------------------------------------------------------
  // Encoding

  /** Three elements, compact or laid out. */
  lemma ThreeElements(x: Value, y: Value, z: Value, w: bool, level: nat)
    ensures var p := Indent(w, level + 1);
      EncodeElements([x, y, z], 0, w, level)
      == p + Encode(x, w, level + 1) + [','] + Newline(w)
       + (p + Encode(y, w, level + 1) + [','] + Newline(w)
       + (p + Encode(z, w, level + 1) + Newline(w)))
  {
    var a := [x, y, z];
    var p := Indent(w, level + 1);
    var last := p + Encode(z, w, level + 1);
    assert EncodeElements(a, 2, w, level) == last + [] + Newline(w) + [];
    assert last + [] == last;
    assert last + Newline(w) + [] == last + Newline(w);
  }

  /** The innermost array of the encoding test, laid out at depth one. */
  lemma LaidOutArrayText()
    ensures Encode(Arr([Num(Int(1)), Num(Int(2)), Num(Int(3))]), true, 1) == "[\n\t\t1,\n\t\t2,\n\t\t3\n\t]"
  {
    ThreeElements(Num(Int(1)), Num(Int(2)), Num(Int(3)), true, 1);
    LaidOutSpelling();
    LaidOutJoin(EncodeElements([Num(Int(1)), Num(Int(2)), Num(Int(3))], 0, true, 1));
  }

  lemma LaidOutSpelling()
    ensures Encode(Num(Int(1)), true, 2) == "1"
    ensures Encode(Num(Int(2)), true, 2) == "2"
    ensures Encode(Num(Int(3)), true, 2) == "3"
    ensures Indent(true, 2) == "\t\t" && Indent(true, 1) == "\t" && Newline(true) == "\n"
  {
  }

  lemma LaidOutJoin(e: seq<char>)
    requires e == "\t\t" + "1" + [','] + "\n" + ("\t\t" + "2" + [','] + "\n" + ("\t\t" + "3" + "\n"))
    ensures ['['] + "\n" + e + "\t" + [']'] == "[\n\t\t1,\n\t\t2,\n\t\t3\n\t]"
  {
  }

  /** Members are written in ascending key order, whatever order the map
      was built in. */
  lemma TwoMembers(o: map<string, Value>, j: string, k: string, w: bool, level: nat)
    requires o.Keys == {j, k} && Before(j, k)
    ensures var p := Indent(w, level + 1);
      Encode(Obj(o), w, level)
      == ['{'] + Newline(w)
       + (p + MemberText(j, o[j], w, level + 1) + [','] + Newline(w)
       + (p + MemberText(k, o[k], w, level + 1) + Newline(w)))
       + Indent(w, level) + ['}']
  {
    var keys := [j, k];
    assert StrictlySorted(keys);
    SortedListingUnique(keys, o.Keys);
    var p := Indent(w, level + 1);
    var last := p + MemberText(k, o[k], w, level + 1);
    assert EncodeMembers(o, keys, 1, w, level) == last + [] + Newline(w) + [];
    assert last + [] == last;
    assert last + Newline(w) + [] == last + Newline(w);
  }

  /** Keys inserted as `n`, `b` are written as `b`, `n`. */
  lemma CompactObjectText()
    ensures Encode(Obj(map["n" := Null, "b" := Bool(true)]), false, 0) == "{\"b\":true,\"n\":null}"
  {
    var o := map["n" := Null, "b" := Bool(true)];
    assert o.Keys == {"b", "n"};
    assert Before("b", "n");
    assert o["b"] == Bool(true) && o["n"] == Null;
    TwoMembers(o, "b", "n", false, 0);
    CompactObjectSpelling();
    CompactObjectJoin(MemberText("b", Bool(true), false, 1), MemberText("n", Null, false, 1));
  }

  lemma CompactObjectJoin(first: seq<char>, second: seq<char>)
    requires first == "\"b\":true" && second == "\"n\":null"
    ensures ['{'] + [] + ([] + first + [','] + [] + ([] + second + [])) + [] + ['}'] == "{\"b\":true,\"n\":null}"
  {
  }

  lemma CompactObjectSpelling()
    ensures MemberText("b", Bool(true), false, 1) == "\"b\":true"
    ensures MemberText("n", Null, false, 1) == "\"n\":null"
    ensures Indent(false, 1) == [] && Indent(false, 0) == [] && Newline(false) == []
  {
    assert EscapeString("b") == "b";
    assert EscapeString("n") == "n";
  }
}
