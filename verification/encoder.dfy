/** `json::encode`: renders a value as JSON text, compact or laid out with
    newlines and tabs, optionally after a byte-order mark. */
module JsonEncoder {
  import opened JsonChars
  import opened JsonValue
  import opened KeyOrder

  const HexDigits: seq<char> := "0123456789abcdef"

  /** `\u` and the four lowercase hexadecimal digits of the byte. */
  function UnicodeEscape(c: char): (r: seq<char>)
    ensures |r| == 6 && r[0] == '\\' && r[1] == 'u'
    ensures forall i :: 2 <= i < 6 ==> r[i] in HexDigits
  {
    var n := c as int;
    ['\\', 'u', HexDigits[(n / 0x1000) % 16], HexDigits[(n / 0x100) % 16], HexDigits[(n / 0x10) % 16], HexDigits[n % 16]]
  }

  /** The bytes `json::encode` does not copy into a string as they are. */
  predicate NeedsEscape(c: char) {
    c == '"' || c == '\\' || c == '/' || IsControl(c)
  }

  /** How one byte of a string is written: `"`, `\`, `/` and the five control
      bytes with a short form get a two-character escape, other control bytes
      a `\u00XX` escape, and every other byte (including each byte of a
      multi-byte UTF-8 sequence) is copied. */
  function EscapeChar(c: char): (r: seq<char>)
    ensures r == [c] <==> !NeedsEscape(c)
    ensures NeedsEscape(c) ==> |r| >= 2 && r[0] == '\\'
  {
    if c == '"' then ['\\', '"']
    else if c == '\\' then ['\\', '\\']
    else if c == '/' then ['\\', '/']
    else if c == Backspace then ['\\', 'b']
    else if c == FormFeed then ['\\', 'f']
    else if c == '\n' then ['\\', 'n']
    else if c == '\r' then ['\\', 'r']
    else if c == '\t' then ['\\', 't']
    else if IsControl(c) then UnicodeEscape(c)
    else [c]
  }

  /** A string's bytes, each escaped as `EscapeChar` says. */
  function EscapeString(s: string): (r: seq<char>)
    ensures |r| >= |s|
  {
    if |s| == 0 then [] else EscapeChar(s[0]) + EscapeString(s[1..])
  }

  /** A string with no byte that needs an escape is written as it is. */
  lemma {:induction false} PlainStringCopied(s: string)
    requires forall i :: 0 <= i < |s| ==> !NeedsEscape(s[i])
    ensures EscapeString(s) == s
  {
    if |s| > 0 {
      PlainStringCopied(s[1..]);
      assert EscapeChar(s[0]) == [s[0]];
      assert [s[0]] + s[1..] == s;
    }
  }

  /** An integral number is written as the decimal integer
      `std::to_string(static_cast<std::int64_t>(d))`. A fractional one is
      written as its lexeme. The library converts it to a `double` first, so
      an integral fraction such as `2.0` comes out as `2`, and any other
      fraction comes out with six decimals. */
  function EncodeNumber(n: Number): (r: seq<char>)
    ensures n.Int? ==> |r| > 0 && (r[0] == '-' <==> n.i < 0)
    ensures n.Int? ==> forall j :: 0 < j < |r| ==> IsDigit(r[j])
    ensures n.Int? && n.i < 0 ==> |r| >= 2 && r[1] != '0'
    ensures n.Int? && n.i > 0 ==> r[0] != '0'
    ensures forall j :: 0 <= j < |r| ==> IsNumberChar(r[j])
  {
    match n
    case Int(i) => if i < 0 then ['-'] + Digits(-i) else Digits(i)
    case Frac(lexeme) => lexeme
  }

  /** `level` tabs in the laid-out form, nothing in the compact one. */
  function Indent(whitespaces: bool, level: nat): seq<char> {
    if whitespaces then seq(level, _ => '\t') else []
  }

  function Newline(whitespaces: bool): seq<char> {
    if whitespaces then ['\n'] else []
  }

  /** The comma after entry `i` of `count`: only between siblings. */
  function Comma(i: nat, count: nat): seq<char> {
    if i + 1 < count then [','] else []
  }

  lemma KeysInMap(o: map<string, Value>)
    ensures forall j :: 0 <= j < |SortedKeys(o.Keys)| ==> SortedKeys(o.Keys)[j] in o
  {
    var keys := SortedKeys(o.Keys);
    forall j | 0 <= j < |keys|
      ensures keys[j] in o
    {
      assert keys[j] in keys;
    }
  }

  /** The private `encode(value, result, whitespaces, level)`. */
  function Encode(v: Value, whitespaces: bool, level: nat): (r: seq<char>)
    ensures !v.Num? || v.n.Int? ==> |r| > 0
    ensures |r| > 0 ==> !IsWhitespace(r[0]) && r[0] != BOM[0]
    decreases v, 1, 0
  {
    match v
    case Null => "null"
    case Bool(b) => if b then "true" else "false"
    case Num(n) => EncodeNumber(n)
    case Str(s) => ['"'] + EscapeString(s) + ['"']
    case Obj(o) =>
      ['{'] + Newline(whitespaces)
      + EncodeMembers(o, SortedKeys(o.Keys), 0, whitespaces, level)
      + Indent(whitespaces, level) + ['}']
    case Arr(a) =>
      ['['] + Newline(whitespaces)
      + EncodeElements(a, 0, whitespaces, level)
      + Indent(whitespaces, level) + [']']
  }

  /** One object member: its key, a colon and its value. */
  function MemberText(key: string, value: Value, whitespaces: bool, level: nat): (r: seq<char>)
    ensures |r| >= |key| + 3 && r[0] == '"'
    decreases value, 1, 1
  {
    ['"'] + EscapeString(key) + ['"', ':'] + Encode(value, whitespaces, level)
  }

  /** The members of an object from the `i`-th key of `keys` on. */
  function EncodeMembers(o: map<string, Value>, keys: seq<string>, i: nat, whitespaces: bool, level: nat): (r: seq<char>)
    requires i <= |keys|
    requires forall j :: 0 <= j < |keys| ==> keys[j] in o
    ensures r == [] <==> i == |keys|
    ensures whitespaces && i < |keys| ==> r[0] == '\t' && r[|r| - 1] == '\n'
    decreases Obj(o), 0, |keys| - i
  {
    if i == |keys| then []
    else
      Indent(whitespaces, level + 1)
      + MemberText(keys[i], o[keys[i]], whitespaces, level + 1)
      + Comma(i, |keys|) + Newline(whitespaces)
      + EncodeMembers(o, keys, i + 1, whitespaces, level)
  }

  /** The elements of an array from the `i`-th on, in stored order. */
  function EncodeElements(a: seq<Value>, i: nat, whitespaces: bool, level: nat): (r: seq<char>)
    requires i <= |a|
    ensures whitespaces ==> (r == [] <==> i == |a|)
    ensures whitespaces && i < |a| ==> r[0] == '\t' && r[|r| - 1] == '\n'
    decreases Arr(a), 0, |a| - i
  {
    if i == |a| then []
    else
      Indent(whitespaces, level + 1)
      + Encode(a[i], whitespaces, level + 1)
      + Comma(i, |a|) + Newline(whitespaces)
      + EncodeElements(a, i + 1, whitespaces, level)
  }

  /** `json::encode(value, whitespaces, byteOrderMark)`. */
  function EncodeDocument(v: Value, whitespaces: bool, byteOrderMark: bool): (r: seq<char>)
    ensures byteOrderMark <==> |r| >= 3 && r[..3] == BOM
  {
    (if byteOrderMark then BOM else []) + Encode(v, whitespaces, 0)
  }

  // ---------------------------------------------------------------------------
  // Layout

  /** Reference definition of "separated by": `sep` between consecutive parts
      and nowhere else. */
  function Join(parts: seq<seq<char>>, sep: char): seq<char> {
    if |parts| == 0 then []
    else if |parts| == 1 then parts[0]
    else parts[0] + [sep] + Join(parts[1..], sep)
  }

  function Count(s: seq<char>, c: char): nat {
    if |s| == 0 then 0 else (if s[0] == c then 1 else 0) + Count(s[1..], c)
  }

  function CountAll(parts: seq<seq<char>>, c: char): nat {
    if |parts| == 0 then 0 else Count(parts[0], c) + CountAll(parts[1..], c)
  }

  lemma {:induction false} CountConcat(a: seq<char>, b: seq<char>, c: char)
    ensures Count(a + b, c) == Count(a, c) + Count(b, c)
  {
    if |a| == 0 {
      assert a + b == b;
    } else {
      assert (a + b)[0] == a[0];
      assert (a + b)[1..] == a[1..] + b;
      CountConcat(a[1..], b, c);
    }
  }

  /** Joining `n` parts adds exactly `n - 1` separators to those the parts
      already hold. */
  lemma {:induction false} JoinSeparatorCount(parts: seq<seq<char>>, sep: char)
    requires |parts| > 0
    ensures Count(Join(parts, sep), sep) == CountAll(parts, sep) + |parts| - 1
  {
    if |parts| > 1 {
      JoinSeparatorCount(parts[1..], sep);
      CountConcat(parts[0] + [sep], Join(parts[1..], sep), sep);
      CountConcat(parts[0], [sep], sep);
      assert Count([sep], sep) == 1 by {
        assert [sep][1..] == [];
      }
    }
  }

  /** The compact texts of the elements of an array. */
  function ElementTexts(a: seq<Value>, level: nat): (r: seq<seq<char>>)
    ensures |r| == |a|
    ensures forall i :: 0 <= i < |a| ==> r[i] == Encode(a[i], false, level)
  {
    seq(|a|, i requires 0 <= i < |a| => Encode(a[i], false, level))
  }

  /** The compact texts of the members of an object, in key order. */
  function MemberTexts(o: map<string, Value>, keys: seq<string>, level: nat): (r: seq<seq<char>>)
    requires forall j :: 0 <= j < |keys| ==> keys[j] in o
    ensures |r| == |keys|
    ensures forall i :: 0 <= i < |keys| ==> r[i] == MemberText(keys[i], o[keys[i]], false, level)
  {
    seq(|keys|, i requires 0 <= i < |keys| => MemberText(keys[i], o[keys[i]], false, level))
  }

  lemma {:induction false} CompactElements(a: seq<Value>, i: nat, level: nat)
    requires i <= |a|
    ensures EncodeElements(a, i, false, level) == Join(ElementTexts(a, level + 1)[i..], ',')
    decreases |a| - i
  {
    if i < |a| {
      CompactElements(a, i + 1, level);
      var parts := ElementTexts(a, level + 1)[i..];
      assert parts[1..] == ElementTexts(a, level + 1)[i + 1..];
    }
  }

  lemma {:induction false} CompactMembers(o: map<string, Value>, keys: seq<string>, i: nat, level: nat)
    requires i <= |keys|
    requires forall j :: 0 <= j < |keys| ==> keys[j] in o
    ensures EncodeMembers(o, keys, i, false, level) == Join(MemberTexts(o, keys, level + 1)[i..], ',')
    decreases |keys| - i
  {
    if i < |keys| {
      CompactMembers(o, keys, i + 1, level);
      CompactMembersUnfold(o, keys, i, level);
      JoinStep(MemberTexts(o, keys, level + 1), i);
    }
  }

  lemma CompactMembersUnfold(o: map<string, Value>, keys: seq<string>, i: nat, level: nat)
    requires i < |keys|
    requires forall j :: 0 <= j < |keys| ==> keys[j] in o
    ensures EncodeMembers(o, keys, i, false, level)
         == MemberText(keys[i], o[keys[i]], false, level + 1) + (Comma(i, |keys|) + EncodeMembers(o, keys, i + 1, false, level))
  {
    var text := MemberText(keys[i], o[keys[i]], false, level + 1);
    var comma := Comma(i, |keys|);
    var rest := EncodeMembers(o, keys, i + 1, false, level);
    assert [] + text + comma + [] + rest == text + (comma + rest);
  }

  /** Joining from part `i` on: that part, then a comma if another follows,
      then the join of the rest. */
  lemma JoinStep(parts: seq<seq<char>>, i: nat)
    requires i < |parts|
    ensures Join(parts[i..], ',') == parts[i] + (Comma(i, |parts|) + Join(parts[i + 1..], ','))
  {
    var tail := parts[i..];
    assert tail[0] == parts[i];
    assert tail[1..] == parts[i + 1..];
    if i + 1 == |parts| {
      assert parts[i + 1..] == [];
    }
  }

  /** Compact arrays: the elements in stored order, separated by commas. */
  lemma CompactArrayLayout(a: seq<Value>, level: nat)
    ensures Encode(Arr(a), false, level) == ['['] + Join(ElementTexts(a, level + 1), ',') + [']']
  {
    CompactElements(a, 0, level);
    assert ElementTexts(a, level + 1)[0..] == ElementTexts(a, level + 1);
  }

  /** Compact objects: the members in ascending key order, separated by
      commas. */
  lemma CompactObjectLayout(o: map<string, Value>, level: nat)
    ensures Encode(Obj(o), false, level)
         == ['{'] + Join(MemberTexts(o, SortedKeys(o.Keys), level + 1), ',') + ['}']
  {
    var keys := SortedKeys(o.Keys);
    var parts := MemberTexts(o, keys, level + 1);
    CompactObjectFrame(o, level);
    CompactMembers(o, keys, 0, level);
    assert parts[0..] == parts;
  }

  lemma CompactObjectFrame(o: map<string, Value>, level: nat)
    ensures Encode(Obj(o), false, level) == ['{'] + EncodeMembers(o, SortedKeys(o.Keys), 0, false, level) + ['}']
  {
    ObjectShape(o, false, level);
    DropEmpty(['{'], EncodeMembers(o, SortedKeys(o.Keys), 0, false, level), ['}']);
  }

  /** An object's text, its members in key order. */
  lemma ObjectShape(o: map<string, Value>, whitespaces: bool, level: nat)
    ensures Encode(Obj(o), whitespaces, level)
         == ['{'] + Newline(whitespaces) + EncodeMembers(o, SortedKeys(o.Keys), 0, whitespaces, level) + Indent(whitespaces, level) + ['}']
  {
  }

  lemma DropEmpty(a: seq<char>, b: seq<char>, c: seq<char>)
    ensures a + [] + b + [] + c == a + b + c
  {
  }

  /** A non-empty container gets one comma fewer than it has entries, on top
      of the commas inside the entries. */
  lemma ContainerCommaCount(v: Value, level: nat)
    requires v.Arr? || v.Obj?
    requires v.Arr? ==> |v.a| > 0
    requires v.Obj? ==> |v.o| > 0
    ensures v.Arr? ==>
      Count(Encode(v, false, level), ',') == CountAll(ElementTexts(v.a, level + 1), ',') + |v.a| - 1
    ensures v.Obj? ==>
      Count(Encode(v, false, level), ',')
      == CountAll(MemberTexts(v.o, SortedKeys(v.o.Keys), level + 1), ',') + |v.o| - 1
  {
    if v.Arr? {
      var parts := ElementTexts(v.a, level + 1);
      CompactArrayLayout(v.a, level);
      JoinSeparatorCount(parts, ',');
      CountConcat(['['] + Join(parts, ','), [']'], ',');
      CountConcat(['['], Join(parts, ','), ',');
    } else {
      var keys := SortedKeys(v.o.Keys);
      var parts := MemberTexts(v.o, keys, level + 1);
      CompactObjectLayout(v.o, level);
      assert |keys| == |v.o.Keys| == |v.o|;
      JoinSeparatorCount(parts, ',');
      CountConcat(['{'] + Join(parts, ','), ['}'], ',');
      CountConcat(['{'], Join(parts, ','), ',');
    }
  }

  // ---------------------------------------------------------------------------
  // The laid-out form is the compact form plus newlines and tabs

  /** Deletes every newline and tab. */
  function Strip(s: seq<char>): (r: seq<char>)
    ensures forall i :: 0 <= i < |r| ==> r[i] != '\n' && r[i] != '\t'
  {
    if |s| == 0 then []
    else if s[0] == '\n' || s[0] == '\t' then Strip(s[1..])
    else [s[0]] + Strip(s[1..])
  }

  predicate NoLayoutChars(s: seq<char>) {
    forall i :: 0 <= i < |s| ==> s[i] != '\n' && s[i] != '\t'
  }

  lemma {:induction false} StripConcat(a: seq<char>, b: seq<char>)
    ensures Strip(a + b) == Strip(a) + Strip(b)
  {
    if |a| == 0 {
      assert a + b == b;
    } else {
      assert (a + b)[0] == a[0];
      assert (a + b)[1..] == a[1..] + b;
      StripConcat(a[1..], b);
    }
  }

  lemma {:induction false} StripNoLayout(s: seq<char>)
    requires NoLayoutChars(s)
    ensures Strip(s) == s
  {
    if |s| > 0 {
      StripNoLayout(s[1..]);
    }
  }

  lemma {:induction false} StripLayoutOnly(s: seq<char>)
    requires forall i :: 0 <= i < |s| ==> s[i] == '\n' || s[i] == '\t'
    ensures Strip(s) == []
  {
    if |s| > 0 {
      StripLayoutOnly(s[1..]);
    }
  }

  /** Raw newlines and tabs inside strings are always escaped. */
  lemma {:induction false} EscapeStringNoLayout(s: string)
    ensures NoLayoutChars(EscapeString(s))
  {
    if |s| > 0 {
      EscapeStringNoLayout(s[1..]);
      EscapeCharNoLayout(s[0]);
      NoLayoutJoin(EscapeChar(s[0]), EscapeString(s[1..]));
    }
  }

  lemma EscapeCharNoLayout(c: char)
    ensures NoLayoutChars(EscapeChar(c))
  {
    if IsControl(c) && !(c == Backspace || c == FormFeed || c == '\n' || c == '\r' || c == '\t') {
      var e := UnicodeEscape(c);
      assert forall i :: 2 <= i < 6 ==> e[i] in HexDigits;
    }
  }

  lemma NoLayoutJoin(a: seq<char>, b: seq<char>)
    requires NoLayoutChars(a) && NoLayoutChars(b)
    ensures NoLayoutChars(a + b)
  {
    forall i | 0 <= i < |a + b|
      ensures (a + b)[i] != '\n' && (a + b)[i] != '\t'
    {
      if i >= |a| {
        assert (a + b)[i] == b[i - |a|];
      }
    }
  }

  lemma NumberNoLayout(n: Number)
    ensures NoLayoutChars(EncodeNumber(n))
  {
    match n
    case Int(i) =>
      var ds := Digits(if i < 0 then -i else i);
      assert forall j :: 0 <= j < |ds| ==> IsDigit(ds[j]);
    case Frac(lexeme) =>
      assert forall j :: 0 <= j < |lexeme| ==> IsNumberChar(lexeme[j]);
  }

  lemma StripFrame(open: char, close: char, level: nat, inner: seq<char>)
    requires open in "{[" && close in "}]"
    ensures Strip([open] + Newline(true) + inner + Indent(true, level) + [close])
         == [open] + Newline(false) + Strip(inner) + Indent(false, level) + [close]
  {
    StripConcat([open] + Newline(true) + inner + Indent(true, level), [close]);
    StripConcat([open] + Newline(true) + inner, Indent(true, level));
    StripConcat([open] + Newline(true), inner);
    StripConcat([open], Newline(true));
    StripLayoutOnly(Indent(true, level));
    StripLayoutOnly(Newline(true));
    StripNoLayout([open]);
    StripNoLayout([close]);
  }

  lemma StripEntry(level: nat, body: seq<char>, i: nat, count: nat, rest: seq<char>)
    ensures Strip(Indent(true, level) + body + Comma(i, count) + Newline(true) + rest)
         == Indent(false, level) + Strip(body) + Comma(i, count) + Newline(false) + Strip(rest)
  {
    StripConcat(Indent(true, level) + body + Comma(i, count) + Newline(true), rest);
    StripConcat(Indent(true, level) + body + Comma(i, count), Newline(true));
    StripConcat(Indent(true, level) + body, Comma(i, count));
    StripConcat(Indent(true, level), body);
    StripLayoutOnly(Indent(true, level));
    StripLayoutOnly(Newline(true));
    StripNoLayout(Comma(i, count));
  }

  /** Deleting every newline and tab from the laid-out text gives the compact
      text. */
  lemma {:induction false} StripLayout(v: Value, level: nat)
    ensures Strip(Encode(v, true, level)) == Encode(v, false, level)
    decreases v, 1, 0
  {
    match v
    case Null => StripNoLayout(Encode(v, true, level));
    case Bool(b) => StripNoLayout(Encode(v, true, level));
    case Num(n) => NumberNoLayout(n); StripNoLayout(EncodeNumber(n));
    case Str(s) =>
      EscapeStringNoLayout(s);
      StripNoLayout(Encode(v, true, level));
    case Obj(o) =>
      var keys := SortedKeys(o.Keys);
      StripMembers(o, keys, 0, level);
      StripFrame('{', '}', level, EncodeMembers(o, keys, 0, true, level));
    case Arr(a) =>
      StripElements(a, 0, level);
      StripFrame('[', ']', level, EncodeElements(a, 0, true, level));
  }

  lemma {:induction false} StripMember(key: string, value: Value, level: nat)
    ensures Strip(MemberText(key, value, true, level)) == MemberText(key, value, false, level)
    decreases value, 1, 1
  {
    var head := ['"'] + EscapeString(key) + ['"', ':'];
    EscapeStringNoLayout(key);
    assert NoLayoutChars(head);
    StripNoLayout(head);
    StripConcat(head, Encode(value, true, level));
    StripLayout(value, level);
  }

  lemma {:induction false} StripMembers(o: map<string, Value>, keys: seq<string>, i: nat, level: nat)
    requires i <= |keys|
    requires forall j :: 0 <= j < |keys| ==> keys[j] in o
    ensures Strip(EncodeMembers(o, keys, i, true, level)) == EncodeMembers(o, keys, i, false, level)
    decreases Obj(o), 0, |keys| - i
  {
    if i < |keys| {
      StripMember(keys[i], o[keys[i]], level + 1);
      StripMembers(o, keys, i + 1, level);
      StripEntry(level + 1, MemberText(keys[i], o[keys[i]], true, level + 1), i, |keys|,
        EncodeMembers(o, keys, i + 1, true, level));
    }
  }

  lemma {:induction false} StripElements(a: seq<Value>, i: nat, level: nat)
    requires i <= |a|
    ensures Strip(EncodeElements(a, i, true, level)) == EncodeElements(a, i, false, level)
    decreases Arr(a), 0, |a| - i
  {
    if i < |a| {
      StripLayout(a[i], level + 1);
      StripElements(a, i + 1, level);
      StripEntry(level + 1, Encode(a[i], true, level + 1), i, |a|,
        EncodeElements(a, i + 1, true, level));
    }
  }

  /** The byte-order mark is a prefix and changes nothing else; the layout
      choice is independent of it. */
  lemma ByteOrderMarkPrefix(v: Value, whitespaces: bool)
    ensures EncodeDocument(v, whitespaces, true) == BOM + EncodeDocument(v, whitespaces, false)
    ensures Strip(EncodeDocument(v, true, false)) == EncodeDocument(v, false, false)
  {
    assert EncodeDocument(v, whitespaces, false) == Encode(v, whitespaces, 0);
    assert EncodeDocument(v, true, false) == Encode(v, true, 0);
    StripLayout(v, 0);
  }
}
