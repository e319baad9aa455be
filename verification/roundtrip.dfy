/** The parser reads back what the encoder writes, for every tree whose
    numbers are integers and whose strings avoid the control bytes the
    encoder writes as `\u00XX`. */
module JsonRoundTrip {
  import opened JsonErrors
  import opened JsonChars
  import opened JsonValue
  import opened KeyOrder
  import opened JsonParser
  import opened JsonEncoder
  import opened JsonParserFacts

  /** A byte the encoder may write first. */
  predicate StartsValue(c: char) {
    c == 'n' || c == 't' || c == 'f' || c == '-' || IsDigit(c) || c == '"' || c == '[' || c == '{'
  }

  /** What may follow a value without changing how it is read: nothing, or a
      byte that does not continue a number. */
  predicate Delimits(rest: seq<char>) {
    rest == [] || (!IsDigit(rest[0]) && rest[0] != '.')
  }

  // ---------------------------------------------------------------------------
  // Sequence facts, proved apart from the large contexts that use them

  lemma TakeNext<T>(a: seq<T>, i: nat)
    requires i < |a|
    ensures a[..i + 1] == a[..i] + [a[i]]
  {
  }

  lemma TakeAll<T>(a: seq<T>)
    ensures a[..|a|] == a
  {
  }

  // ---------------------------------------------------------------------------
  // Whitespace and keywords

  lemma LayoutIsWhitespace(whitespaces: bool, level: nat)
    ensures AllWhitespace(Indent(whitespaces, level))
    ensures AllWhitespace(Newline(whitespaces))
    ensures AllWhitespace(Newline(whitespaces) + Indent(whitespaces, level))
  {
  }

  // ---------------------------------------------------------------------------
  // What the encoder writes first

  lemma EncodeStart(v: Value, whitespaces: bool, level: nat)
    requires IntegersOnly(v)
    ensures |Encode(v, whitespaces, level)| > 0
    ensures StartsValue(Encode(v, whitespaces, level)[0])
  {
    if v.Num? {
      var i := v.n.i;
      var ds := Digits(if i < 0 then -i else i);
      assert IsDigit(ds[0]);
    }
  }

  lemma StartsValueNotWhitespace(c: char)
    requires StartsValue(c)
    ensures !IsWhitespace(c) && c != BOM[0] && c != ']' && c != '}' && c != ','
  {
  }

  // ---------------------------------------------------------------------------
  // Strings

  /** The encoder's escape table and the parser's are inverse on every
      round-trip byte: a byte is either copied as itself, being neither a
      quote, a backslash nor a control byte, or written as a backslash and an
      escape letter (never `u`) that the parser maps back to it. */
  lemma EscapeCharInverse(c: char)
    requires IsRoundTripChar(c)
    ensures || (EscapeChar(c) == [c] && c != '"' && c != '\\' && !IsControl(c))
            || (&& |EscapeChar(c)| == 2 && EscapeChar(c)[0] == '\\'
                && IsEscapeLetter(EscapeChar(c)[1]) && EscapeChar(c)[1] != 'u'
                && Unescape(EscapeChar(c)[1]) == c)
  {
  }

  lemma {:induction false} StringBodyRoundTrip(s: string, rest: seq<char>)
    requires IsRoundTripString(s)
    ensures ParseStringBody(EscapeString(s) + ['"'] + rest) == Ok((s, rest))
  {
    if |s| == 0 {
      assert EscapeString(s) + ['"'] + rest == ['"'] + rest;
    } else {
      var t := EscapeString(s[1..]) + ['"'] + rest;
      assert EscapeString(s) + ['"'] + rest == EscapeChar(s[0]) + t;
      StringBodyRoundTrip(s[1..], rest);
      EscapedCharRead(s[0], t, s[1..], rest);
      assert [s[0]] + s[1..] == s;
    }
  }

  /** One escaped byte in front of a string body the parser reads as `s`
      makes it read `c` then `s`. */
  lemma EscapedCharRead(c: char, t: seq<char>, s: string, rest: seq<char>)
    requires IsRoundTripChar(c)
    requires ParseStringBody(t) == Ok((s, rest))
    ensures ParseStringBody(EscapeChar(c) + t) == Ok(([c] + s, rest))
  {
    var e := EscapeChar(c);
    EscapeCharInverse(c);
    if e == [c] {
      assert (e + t)[0] == c;
      assert (e + t)[1..] == t;
    } else {
      assert (e + t)[0] == '\\' && (e + t)[1] == e[1];
      assert (e + t)[2..] == t;
    }
  }

  lemma StringRoundTrip(s: string, rest: seq<char>)
    requires IsRoundTripString(s)
    ensures ParseString(['"'] + EscapeString(s) + ['"'] + rest) == Ok((s, rest))
  {
    var input := ['"'] + EscapeString(s) + ['"'] + rest;
    assert input[1..] == EscapeString(s) + ['"'] + rest;
    StringBodyRoundTrip(s, rest);
  }

  // ---------------------------------------------------------------------------
  // Numbers

  lemma IntegerRoundTrip(i: int, rest: seq<char>)
    requires Delimits(rest)
    ensures ParseNumber(EncodeNumber(Int(i)) + rest) == Ok((Num(Int(i)), rest))
  {
    var m := if i < 0 then -i else i;
    var ds := Digits(m);
    assert EncodeNumber(Int(i)) + rest == Sign(i < 0) + (ds + rest);
    IntegerLiteral(i < 0, ds, rest);
    DigitsValueOfDigits(m);
  }

  // ---------------------------------------------------------------------------
  // Values

  predicate Encodable(v: Value) {
    SafeStrings(v) && IntegersOnly(v)
  }

  /** The layout before an entry of a container at depth `level`. */
  function Pad(whitespaces: bool, level: nat): seq<char> {
    Newline(whitespaces) + Indent(whitespaces, level + 1)
  }

  /** The comma the parser expects before entry `i` of `count`. */
  function Separator(i: nat, count: nat): seq<char> {
    if i == 0 then [] else Comma(i - 1, count)
  }

  /** The closing layout and bracket of a container, then `rest`. */
  function Closing(whitespaces: bool, level: nat, close: char, rest: seq<char>): seq<char> {
    Indent(whitespaces, level) + ([close] + rest)
  }

  /** The encoded array from the parser's point of view before element `i`:
      the separator the parser expects there (none before the first
      element), the remaining elements, the closing bracket, then `rest`. */
  function ElementsText(a: seq<Value>, i: nat, whitespaces: bool, level: nat, rest: seq<char>): seq<char>
    requires i <= |a|
  {
    Separator(i, |a|) + (Newline(whitespaces) + (EncodeElements(a, i, whitespaces, level) + Closing(whitespaces, level, ']', rest)))
  }

  /** The same for an object, over its keys in encoding order. */
  function MembersText(o: map<string, Value>, keys: seq<string>, i: nat, whitespaces: bool, level: nat, rest: seq<char>): seq<char>
    requires i <= |keys|
    requires forall j :: 0 <= j < |keys| ==> keys[j] in o
  {
    Separator(i, |keys|) + (Newline(whitespaces) + (EncodeMembers(o, keys, i, whitespaces, level) + Closing(whitespaces, level, '}', rest)))
  }

  function KeyText(key: string): seq<char> {
    ['"'] + EscapeString(key) + ['"']
  }

  /** The members the parser holds after reading the first `i` keys. */
  function Prefix(o: map<string, Value>, keys: seq<string>, i: nat): map<string, Value>
    requires i <= |keys|
    requires forall j :: 0 <= j < |keys| ==> keys[j] in o
  {
    map k | k in keys[..i] :: o[k]
  }

  lemma ContainerEnd(whitespaces: bool, level: nat, count: nat, close: char, rest: seq<char>)
    requires close == ']' || close == '}'
    ensures SkipWhitespaces(Separator(count, count) + (Newline(whitespaces) + ([] + Closing(whitespaces, level, close, rest))))
         == [close] + rest
  {
    LayoutIsWhitespace(whitespaces, level);
    assert Separator(count, count) == [];
    assert Separator(count, count) + (Newline(whitespaces) + ([] + Closing(whitespaces, level, close, rest)))
        == (Newline(whitespaces) + Indent(whitespaces, level)) + ([close] + rest);
    SkipWhitespacePrefix(Newline(whitespaces) + Indent(whitespaces, level), [close] + rest);
  }

  lemma ElementsTextEnd(a: seq<Value>, whitespaces: bool, level: nat, rest: seq<char>)
    ensures SkipWhitespaces(ElementsText(a, |a|, whitespaces, level, rest)) == [']'] + rest
  {
    ContainerEnd(whitespaces, level, |a|, ']', rest);
  }

  lemma MembersTextEnd(o: map<string, Value>, keys: seq<string>, whitespaces: bool, level: nat, rest: seq<char>)
    requires forall j :: 0 <= j < |keys| ==> keys[j] in o
    ensures SkipWhitespaces(MembersText(o, keys, |keys|, whitespaces, level, rest)) == ['}'] + rest
  {
    ContainerEnd(whitespaces, level, |keys|, '}', rest);
  }

  /** Regrouping an entry of a container: separator, newline, then the
      indented entry, its comma, newline and the rest. */
  lemma Regroup(sep: seq<char>, nl: seq<char>, ind: seq<char>, e: seq<char>, comma: seq<char>, more: seq<char>, close: seq<char>)
    ensures sep + (nl + ((ind + e + comma + nl + more) + close))
         == sep + ((nl + ind) + (e + (comma + (nl + (more + close)))))
  {
  }

  /** Element `i` as the parser meets it: after the separator (a comma
      unless it is the first), layout, the element, then the text before
      element `i + 1`. */
  lemma ElementsTextEntry(a: seq<Value>, i: nat, whitespaces: bool, level: nat, rest: seq<char>)
    requires i < |a|
    ensures ElementsText(a, i, whitespaces, level, rest)
         == Separator(i, |a|) + (Pad(whitespaces, level) + (Encode(a[i], whitespaces, level + 1) + ElementsText(a, i + 1, whitespaces, level, rest)))
  {
    Regroup(Separator(i, |a|), Newline(whitespaces), Indent(whitespaces, level + 1), Encode(a[i], whitespaces, level + 1),
            Comma(i, |a|), EncodeElements(a, i + 1, whitespaces, level), Closing(whitespaces, level, ']', rest));
  }

  lemma MembersTextEntry(o: map<string, Value>, keys: seq<string>, i: nat, whitespaces: bool, level: nat, rest: seq<char>)
    requires i < |keys|
    requires forall j :: 0 <= j < |keys| ==> keys[j] in o
    ensures MembersText(o, keys, i, whitespaces, level, rest)
         == Separator(i, |keys|) + (Pad(whitespaces, level) + (KeyText(keys[i]) + ([':'] + (Encode(o[keys[i]], whitespaces, level + 1)
            + MembersText(o, keys, i + 1, whitespaces, level, rest)))))
  {
    Regroup(Separator(i, |keys|), Newline(whitespaces), Indent(whitespaces, level + 1), MemberText(keys[i], o[keys[i]], whitespaces, level + 1),
            Comma(i, |keys|), EncodeMembers(o, keys, i + 1, whitespaces, level), Closing(whitespaces, level, '}', rest));
    assert Separator(i + 1, |keys|) == Comma(i, |keys|);
    MemberTextShape(keys[i], o[keys[i]], whitespaces, level + 1, MembersText(o, keys, i + 1, whitespaces, level, rest));
  }

  lemma MemberTextShape(key: string, value: Value, whitespaces: bool, level: nat, more: seq<char>)
    ensures MemberText(key, value, whitespaces, level) + more == KeyText(key) + ([':'] + (Encode(value, whitespaces, level) + more))
  {
    RegroupMember(EscapeString(key), Encode(value, whitespaces, level), more);
  }

  lemma RegroupMember(esc: seq<char>, e: seq<char>, more: seq<char>)
    ensures ['"'] + esc + ['"', ':'] + e + more == (['"'] + esc + ['"']) + ([':'] + (e + more))
  {
    assert ['"', ':'] == ['"'] + [':'];
  }

  lemma RegroupFrame(open: seq<char>, nl: seq<char>, body: seq<char>, ind: seq<char>, close: seq<char>, rest: seq<char>)
    ensures open + nl + body + ind + close + rest == open + ([] + (nl + (body + (ind + (close + rest)))))
  {
  }

  /** Reading past the separator before entry `i`. */
  lemma SeparatorSkip(i: nat, count: nat, entry: seq<char>)
    requires i < count
    ensures i == 0 ==> Separator(i, count) + entry == entry
    ensures i > 0 ==> (Separator(i, count) + entry)[0] == ',' && (Separator(i, count) + entry)[1..] == entry
  {
    if i == 0 {
      assert Separator(i, count) == [];
    } else {
      assert Separator(i, count) == [','];
    }
  }

  lemma ArrayText(a: seq<Value>, whitespaces: bool, level: nat, rest: seq<char>)
    ensures Encode(Arr(a), whitespaces, level) + rest == ['['] + ElementsText(a, 0, whitespaces, level, rest)
  {
    FrameText('[', ']', EncodeElements(a, 0, whitespaces, level), |a|, whitespaces, level, rest);
  }

  lemma ObjectText(o: map<string, Value>, whitespaces: bool, level: nat, rest: seq<char>)
    requires forall j :: 0 <= j < |SortedKeys(o.Keys)| ==> SortedKeys(o.Keys)[j] in o
    ensures Encode(Obj(o), whitespaces, level) + rest == ['{'] + MembersText(o, SortedKeys(o.Keys), 0, whitespaces, level, rest)
  {
    var keys := SortedKeys(o.Keys);
    ObjectShape(o, whitespaces, level);
    FrameText('{', '}', EncodeMembers(o, keys, 0, whitespaces, level), |keys|, whitespaces, level, rest);
  }

  /** A container's text, regrouped as the parser reads it after the
      opening bracket. */
  lemma FrameText(open: char, close: char, body: seq<char>, count: nat, whitespaces: bool, level: nat, rest: seq<char>)
    ensures [open] + Newline(whitespaces) + body + Indent(whitespaces, level) + [close] + rest
         == [open] + (Separator(0, count) + (Newline(whitespaces) + (body + Closing(whitespaces, level, close, rest))))
  {
    assert Separator(0, count) == [];
    RegroupFrame([open], Newline(whitespaces), body, Indent(whitespaces, level), [close], rest);
  }

  /** A comma, a newline or the closing bracket follows each element. */
  lemma ElementsTextDelimits(a: seq<Value>, i: nat, whitespaces: bool, level: nat, rest: seq<char>)
    requires 1 <= i <= |a|
    ensures Delimits(ElementsText(a, i, whitespaces, level, rest))
  {
    var s := ElementsText(a, i, whitespaces, level, rest);
    if i < |a| {
      assert s[0] == ',';
    } else if whitespaces {
      assert s[0] == '\n';
    } else {
      assert s == [']'] + rest;
    }
  }

  lemma MembersTextDelimits(o: map<string, Value>, keys: seq<string>, i: nat, whitespaces: bool, level: nat, rest: seq<char>)
    requires 1 <= i <= |keys|
    requires forall j :: 0 <= j < |keys| ==> keys[j] in o
    ensures Delimits(MembersText(o, keys, i, whitespaces, level, rest))
  {
    var s := MembersText(o, keys, i, whitespaces, level, rest);
    if i < |keys| {
      assert s[0] == ',';
    } else if whitespaces {
      assert s[0] == '\n';
    } else {
      assert s == ['}'] + rest;
    }
  }

  /** The literals, integers and strings read back. */
  lemma ScalarRoundTrip(v: Value, whitespaces: bool, level: nat, rest: seq<char>)
    requires Encodable(v) && !v.Arr? && !v.Obj?
    requires Delimits(rest)
    ensures ParseValue(Encode(v, whitespaces, level) + rest) == Ok((v, rest))
  {
    var t := Encode(v, whitespaces, level) + rest;
    match v
    case Null =>
      assert t == "null" + rest;
      IsSameKeyword("null", rest);
      ValueReadsKeyword(t);
    case Bool(b) =>
      var kw := if b then "true" else "false";
      assert t == kw + rest;
      IsSameKeyword(kw, rest);
      ValueReadsKeyword(t);
    case Num(n) =>
      IntegerRoundTrip(n.i, rest);
      EncodeStart(v, whitespaces, level);
      assert t[0] == EncodeNumber(n)[0];
      ValueReadsNumber(t);
    case Str(s) =>
      assert t == ['"'] + EscapeString(s) + ['"'] + rest;
      StringRoundTrip(s, rest);
      ValueReadsString(t, s, rest);
  }

  /** The encoding of a value, then `rest`, reads back as the value and
      leaves exactly `rest`. */
  lemma {:induction false} ValueRoundTrip(v: Value, whitespaces: bool, level: nat, rest: seq<char>)
    requires Encodable(v)
    requires Delimits(rest)
    ensures ParseValue(Encode(v, whitespaces, level) + rest) == Ok((v, rest))
    decreases v, 2, 0
  {
    match v
    case Null =>
      ScalarRoundTrip(v, whitespaces, level, rest);
    case Bool(_) =>
      ScalarRoundTrip(v, whitespaces, level, rest);
    case Num(_) =>
      ScalarRoundTrip(v, whitespaces, level, rest);
    case Str(_) =>
      ScalarRoundTrip(v, whitespaces, level, rest);
    case Arr(a) =>
      ArrayRoundTrip(a, whitespaces, level, rest);
    case Obj(o) =>
      ObjectRoundTrip(o, whitespaces, level, rest);
  }

  lemma {:induction false} ArrayRoundTrip(a: seq<Value>, whitespaces: bool, level: nat, rest: seq<char>)
    requires Encodable(Arr(a))
    requires Delimits(rest)
    ensures ParseValue(Encode(Arr(a), whitespaces, level) + rest) == Ok((Arr(a), rest))
    decreases Arr(a), 1, |a| + 1
  {
    ElementsRoundTrip(a, 0, whitespaces, level, rest);
    ArrayText(a, whitespaces, level, rest);
    ValueOpensArray(Encode(Arr(a), whitespaces, level) + rest);
  }

  lemma {:induction false} ObjectRoundTrip(o: map<string, Value>, whitespaces: bool, level: nat, rest: seq<char>)
    requires Encodable(Obj(o))
    requires Delimits(rest)
    ensures ParseValue(Encode(Obj(o), whitespaces, level) + rest) == Ok((Obj(o), rest))
    decreases Obj(o), 1, |SortedKeys(o.Keys)| + 1
  {
    var keys := SortedKeys(o.Keys);
    KeysInMap(o);
    MembersRoundTrip(o, keys, 0, whitespaces, level, rest);
    ObjectText(o, whitespaces, level, rest);
    assert Prefix(o, keys, 0) == map[];
    ObjectOfMembers(Encode(Obj(o), whitespaces, level) + rest, MembersText(o, keys, 0, whitespaces, level, rest), Obj(o), rest);
  }

  lemma ObjectOfMembers(t: seq<char>, body: seq<char>, v: Value, rest: seq<char>)
    requires t == ['{'] + body
    requires ParseMembers(body, map[], true) == Ok((v, rest))
    ensures ParseValue(t) == Ok((v, rest))
  {
    ValueOpensObject(t);
    assert t[1..] == body;
  }

  /** An encoded value followed by `after`, read after skipping the layout
      before it. */
  lemma {:induction false} EntryRoundTrip(v: Value, whitespaces: bool, level: nat, after: seq<char>)
    requires Encodable(v) && Delimits(after)
    ensures var t := SkipWhitespaces(Pad(whitespaces, level) + (Encode(v, whitespaces, level + 1) + after));
      && t == Encode(v, whitespaces, level + 1) + after
      && ParseValue(t) == Ok((v, after))
      && |t| > 0 && StartsValue(t[0])
    decreases v, 3, 0
  {
    var e := Encode(v, whitespaces, level + 1);
    LayoutIsWhitespace(whitespaces, level + 1);
    SkipWhitespacePrefix(Pad(whitespaces, level), e + after);
    EncodeStart(v, whitespaces, level + 1);
    StartsValueNotWhitespace(e[0]);
    assert (e + after)[0] == e[0];
    assert SkipWhitespaces(e + after) == e + after;
    ValueRoundTrip(v, whitespaces, level + 1, after);
  }

  /** One encoded member after its layout: the key reads back, then the
      colon, then the value, stopping at `after`. */
  lemma {:induction false} MemberRoundTrip(key: string, value: Value, whitespaces: bool, level: nat, after: seq<char>)
    requires IsRoundTripString(key) && Encodable(value)
    requires Delimits(after)
    ensures var t := SkipWhitespaces(Pad(whitespaces, level) + (KeyText(key) + ([':'] + (Encode(value, whitespaces, level + 1) + after))));
      && |t| > 0 && t[0] == '"'
      && ReadsMember(t, key, value, after)
    decreases value, 4, 0
  {
    var e := Encode(value, whitespaces, level + 1);
    var c := [':'] + (e + after);
    EntryRoundTrip(value, whitespaces, level, after);
    ColonThenValue(c, e + after);
    KeyAfterLayout(key, c, whitespaces, level);
  }

  /** A colon and then text that starts a value: neither side has layout to
      skip. */
  lemma ColonThenValue(c: seq<char>, t: seq<char>)
    requires c == [':'] + t && |t| > 0 && StartsValue(t[0])
    ensures SkipWhitespaces(c) == c && |c| > 0 && c[0] == ':'
    ensures SkipWhitespaces(c[1..]) == t
  {
    NoLeadingWhitespace(c);
    assert c[1..] == t;
    StartsValueNotWhitespace(t[0]);
    NoLeadingWhitespace(t);
  }

  /** An encoded key after its layout reads back as the key, leaving `c`. */
  lemma KeyAfterLayout(key: string, c: seq<char>, whitespaces: bool, level: nat)
    requires IsRoundTripString(key)
    ensures var t := SkipWhitespaces(Pad(whitespaces, level) + (KeyText(key) + c));
      && t == KeyText(key) + c
      && |t| > 0 && t[0] == '"'
      && ParseString(t) == Ok((key, c))
  {
    var u := KeyText(key) + c;
    LayoutIsWhitespace(whitespaces, level);
    SkipWhitespacePrefix(Pad(whitespaces, level), u);
    assert u == ['"'] + EscapeString(key) + ['"'] + c;
    NoLeadingWhitespace(u);
    StringRoundTrip(key, c);
  }

  /** The separator, layout and element `i` are read, leaving the text
      before element `i + 1` with one more element held. */
  lemma ElementsStep(a: seq<Value>, i: nat, whitespaces: bool, level: nat, rest: seq<char>)
    requires i < |a|
    requires var t := SkipWhitespaces(Pad(whitespaces, level) + (Encode(a[i], whitespaces, level + 1) + ElementsText(a, i + 1, whitespaces, level, rest)));
      && ParseValue(t) == Ok((a[i], ElementsText(a, i + 1, whitespaces, level, rest)))
      && |t| > 0 && StartsValue(t[0])
    ensures ParseElements(ElementsText(a, i, whitespaces, level, rest), a[..i], i == 0)
         == ParseElements(ElementsText(a, i + 1, whitespaces, level, rest), a[..i + 1], false)
  {
    var s := ElementsText(a, i, whitespaces, level, rest);
    var after := ElementsText(a, i + 1, whitespaces, level, rest);
    ElementsTextEntry(a, i, whitespaces, level, rest);
    SeparatorSkip(i, |a|, Pad(whitespaces, level) + (Encode(a[i], whitespaces, level + 1) + after));
    if i == 0 {
      ElementsFirstStep(s, a[..i], a[i], after);
    } else {
      ElementsNextStep(s, a[..i], a[i], after);
    }
    TakeNext(a, i);
  }

  /** The elements from `i` on read back, the parser holding the first `i`. */
  lemma {:induction false} ElementsRoundTrip(a: seq<Value>, i: nat, whitespaces: bool, level: nat, rest: seq<char>)
    requires i <= |a|
    requires forall j :: 0 <= j < |a| ==> Encodable(a[j])
    ensures ParseElements(ElementsText(a, i, whitespaces, level, rest), a[..i], i == 0) == Ok((Arr(a), rest))
    decreases Arr(a), 1, |a| - i
  {
    if i == |a| {
      ElementsTextEnd(a, whitespaces, level, rest);
      TakeAll(a);
      ElementsClose(ElementsText(a, i, whitespaces, level, rest), a[..i], i == 0, rest);
    } else {
      ElementsTextDelimits(a, i + 1, whitespaces, level, rest);
      EntryRoundTrip(a[i], whitespaces, level, ElementsText(a, i + 1, whitespaces, level, rest));
      ElementsStep(a, i, whitespaces, level, rest);
      ElementsRoundTrip(a, i + 1, whitespaces, level, rest);
    }
  }

  /** The separator, layout and member `i` are read, leaving the text
      before member `i + 1` with one more member held. */
  lemma MembersStep(o: map<string, Value>, keys: seq<string>, i: nat, whitespaces: bool, level: nat, rest: seq<char>)
    requires i < |keys|
    requires forall j :: 0 <= j < |keys| ==> keys[j] in o
    requires var t := SkipWhitespaces(Pad(whitespaces, level) + (KeyText(keys[i]) + ([':'] + (Encode(o[keys[i]], whitespaces, level + 1)
                      + MembersText(o, keys, i + 1, whitespaces, level, rest)))));
      && |t| > 0 && t[0] == '"'
      && ReadsMember(t, keys[i], o[keys[i]], MembersText(o, keys, i + 1, whitespaces, level, rest))
    ensures ParseMembers(MembersText(o, keys, i, whitespaces, level, rest), Prefix(o, keys, i), i == 0)
         == ParseMembers(MembersText(o, keys, i + 1, whitespaces, level, rest), Prefix(o, keys, i + 1), false)
  {
    var k := keys[i];
    var s := MembersText(o, keys, i, whitespaces, level, rest);
    var after := MembersText(o, keys, i + 1, whitespaces, level, rest);
    MembersTextEntry(o, keys, i, whitespaces, level, rest);
    SeparatorSkip(i, |keys|, Pad(whitespaces, level) + (KeyText(k) + ([':'] + (Encode(o[k], whitespaces, level + 1) + after))));
    if i == 0 {
      MembersFirstStep(s, Prefix(o, keys, i), k, o[k], after);
    } else {
      MembersNextStep(s, Prefix(o, keys, i), k, o[k], after);
    }
    PrefixNext(o, keys, i);
  }

  /** The members from key `i` on read back, the parser holding those of
      the first `i` keys. */
  lemma {:induction false} MembersRoundTrip(o: map<string, Value>, keys: seq<string>, i: nat, whitespaces: bool, level: nat, rest: seq<char>)
    requires Encodable(Obj(o))
    requires keys == SortedKeys(o.Keys)
    requires forall j :: 0 <= j < |keys| ==> keys[j] in o
    requires i <= |keys|
    ensures ParseMembers(MembersText(o, keys, i, whitespaces, level, rest), Prefix(o, keys, i), i == 0) == Ok((Obj(o), rest))
    decreases Obj(o), 1, |keys| - i
  {
    if i == |keys| {
      MembersTextEnd(o, keys, whitespaces, level, rest);
      PrefixAll(o, keys);
      MembersClose(MembersText(o, keys, i, whitespaces, level, rest), Prefix(o, keys, i), i == 0, rest);
    } else {
      MembersAdvance(o, keys, i, whitespaces, level, rest);
      MembersRoundTrip(o, keys, i + 1, whitespaces, level, rest);
    }
  }

  /** Member `i` reads back, leaving the parser before member `i + 1`. */
  lemma {:induction false} MembersAdvance(o: map<string, Value>, keys: seq<string>, i: nat, whitespaces: bool, level: nat, rest: seq<char>)
    requires Encodable(Obj(o))
    requires forall j :: 0 <= j < |keys| ==> keys[j] in o
    requires i < |keys|
    ensures ParseMembers(MembersText(o, keys, i, whitespaces, level, rest), Prefix(o, keys, i), i == 0)
         == ParseMembers(MembersText(o, keys, i + 1, whitespaces, level, rest), Prefix(o, keys, i + 1), false)
    decreases Obj(o), 0
  {
    MembersTextDelimits(o, keys, i + 1, whitespaces, level, rest);
    assert keys[i] in keys;
    MemberRoundTrip(keys[i], o[keys[i]], whitespaces, level, MembersText(o, keys, i + 1, whitespaces, level, rest));
    MembersStep(o, keys, i, whitespaces, level, rest);
  }

  lemma PrefixNext(o: map<string, Value>, keys: seq<string>, i: nat)
    requires i < |keys|
    requires forall j :: 0 <= j < |keys| ==> keys[j] in o
    ensures Prefix(o, keys, i + 1) == Prefix(o, keys, i)[keys[i] := o[keys[i]]]
  {
    TakeNext(keys, i);
  }

  /** Once every key is read, the parser holds the whole object. */
  lemma PrefixAll(o: map<string, Value>, keys: seq<string>)
    requires keys == SortedKeys(o.Keys)
    requires forall j :: 0 <= j < |keys| ==> keys[j] in o
    ensures Prefix(o, keys, |keys|) == o
  {
    TakeAll(keys);
  }

  /** `parse(encode(v, whitespaces, byteOrderMark)) == v`, compact or laid
      out, with or without a byte-order mark. */
  lemma RoundTrip(v: Value, whitespaces: bool, byteOrderMark: bool)
    requires SafeStrings(v) && IntegersOnly(v)
    ensures Parse(EncodeDocument(v, whitespaces, byteOrderMark)) == Ok(v)
  {
    var e := Encode(v, whitespaces, 0);
    var input := EncodeDocument(v, whitespaces, byteOrderMark);
    EncodeStart(v, whitespaces, 0);
    StartsValueNotWhitespace(e[0]);
    ValueRoundTrip(v, whitespaces, 0, []);
    assert e + [] == e;
    if byteOrderMark {
      assert input == BOM + e;
      assert input[3..] == e;
    } else {
      assert input == e;
    }
  }

  /** Parsing, encoding and parsing again gives the first result, whenever
      the first parse produced only integers. */
  lemma ReparseIsStable(text: seq<char>, whitespaces: bool, byteOrderMark: bool)
    requires Parse(text).Ok? && IntegersOnly(Parse(text).value)
    ensures Parse(EncodeDocument(Parse(text).value, whitespaces, byteOrderMark)) == Parse(text)
  {
    RoundTrip(Parse(text).value, whitespaces, byteOrderMark);
  }

  /** Every control byte without a short form is written as `\u00` and its
      two lowercase hexadecimal digits. */
  lemma ControlEscape(c: char)
    requires IsControl(c) && !HasShortEscape(c)
    ensures EscapeString([c]) == ['\\', 'u'] + ['0', '0', HexDigits[c as int / 16], HexDigits[c as int % 16]]
  {
    var n := c as int;
    var hi, lo := n / 16, n % 16;
    assert n == 16 * hi + lo && 0 <= lo < 16 && 0 <= hi < 2;
    assert n / 0x1000 == 0 && n / 0x100 == 0 && n / 0x10 == hi && hi % 16 == hi;
    assert UnicodeEscape(c) == ['\\', 'u', '0', '0', HexDigits[hi], HexDigits[lo]];
    assert EscapeString([c]) == EscapeChar(c) + EscapeString([]);
  }

  /** The round trip needs its restriction on strings: the parser refuses
      the `\u` escape the encoder writes for those control bytes. */
  lemma ControlByteBreaksRoundTrip(c: char)
    requires IsControl(c) && !HasShortEscape(c)
    ensures Parse(EncodeDocument(Str([c]), false, false)) == Err(ParseError("Invalid character code"))
  {
    ControlEscape(c);
    assert EncodeDocument(Str([c]), false, false) == ['"'] + EscapeString([c]) + ['"'];
    QuotedUnicodeEscape(['0', '0', HexDigits[c as int / 16], HexDigits[c as int % 16]]);
  }

  lemma QuotedUnicodeEscape(hex: seq<char>)
    ensures Parse(['"'] + (['\\', 'u'] + hex) + ['"']) == Err(ParseError("Invalid character code"))
  {
    var t := ['"'] + [] + (['\\', 'u'] + (hex + ['"']));
    UnicodeEscapeRejected([], hex + ['"']);
    QuotedEscapeText(hex);
    RejectedString(t, ParseError("Invalid character code"));
  }

  lemma QuotedEscapeText(hex: seq<char>)
    ensures ['"'] + (['\\', 'u'] + hex) + ['"'] == ['"'] + [] + (['\\', 'u'] + (hex + ['"']))
  {
  }
}
