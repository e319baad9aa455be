/** What `json::parse` accepts and rejects, stated over all inputs: the
    byte-order mark, whitespace, the quirks of keyword matching, the number
    grammar and the string escapes. The one-step lemmas at the end let
    proofs about whole documents follow the parser without unfolding it. */
module JsonParserFacts {
  import opened JsonErrors
  import opened JsonChars
  import opened JsonValue
  import opened JsonParser

  // ---------------------------------------------------------------------------
  // Whitespace and the byte-order mark

  lemma {:induction false} SkipWhitespacePrefix(w: seq<char>, t: seq<char>)
    requires AllWhitespace(w)
    ensures SkipWhitespaces(w + t) == SkipWhitespaces(t)
  {
    if |w| > 0 {
      assert (w + t)[0] == w[0];
      assert (w + t)[1..] == w[1..] + t;
      SkipWhitespacePrefix(w[1..], t);
    } else {
      assert w + t == t;
    }
  }

  lemma SkipAllWhitespace(w: seq<char>)
    requires AllWhitespace(w)
    ensures SkipWhitespaces(w) == []
  {
    SkipWhitespacePrefix(w, []);
    assert w + [] == w;
  }

  /** Empty or blank input holds no value. */
  lemma BlankInput(s: seq<char>)
    requires AllWhitespace(s)
    ensures Parse(s) == Err(ParseError("Unexpected end of data"))
  {
    SkipAllWhitespace(s);
    assert !HasByteOrderMark(s) by {
      if |s| > 0 {
        assert IsWhitespace(s[0]);
      }
    }
  }

  /** A byte-order mark in front of the text is skipped. */
  lemma ByteOrderMarkSkipped(s: seq<char>)
    requires !HasByteOrderMark(s)
    ensures Parse(BOM + s) == Parse(s)
  {
    assert (BOM + s)[..3] == BOM;
    assert (BOM + s)[3..] == s;
  }

  /** Only one byte-order mark is skipped: a second is an unexpected
      identifier. */
  lemma SecondByteOrderMark(s: seq<char>)
    ensures Parse(BOM + (BOM + s)) == Err(ParseError("Unexpected identifier"))
  {
    var t := BOM + s;
    assert (BOM + t)[..3] == BOM;
    assert (BOM + t)[3..] == t;
    assert t[0] == BOM[0];
    ValueReadsKeyword(t);
    assert IsSame(t, "true") == (false, t);
    assert IsSame(t, "false") == (false, t);
    assert IsSame(t, "null") == (false, t);
  }

  // ---------------------------------------------------------------------------
  // Keywords

  lemma {:induction false} IsSameKeyword(kw: seq<char>, rest: seq<char>)
    ensures IsSame(kw + rest, kw) == (true, rest)
  {
    if |kw| > 0 {
      assert (kw + rest)[0] == kw[0];
      assert (kw + rest)[1..] == kw[1..] + rest;
      IsSameKeyword(kw[1..], rest);
    } else {
      assert kw + rest == rest;
    }
  }

  /** The input ending inside the expected word is not a mismatch. */
  lemma {:induction false} IsSameCutShort(p: seq<char>, kw: seq<char>)
    requires |p| <= |kw| && p == kw[..|p|]
    ensures IsSame(p, kw) == (true, [])
  {
    if |p| > 0 {
      assert p[0] == kw[0];
      assert p[1..] == kw[1..][..|p| - 1];
      IsSameCutShort(p[1..], kw[1..]);
    }
  }

  /** The comparison stops at the first differing character, leaving the
      text from there on. */
  lemma {:induction false} IsSameStops(p: seq<char>, kw: seq<char>, rest: seq<char>)
    requires |p| < |kw| && p == kw[..|p|]
    requires |rest| > 0 && rest[0] != kw[|p|]
    ensures IsSame(p + rest, kw) == (false, rest)
  {
    if |p| > 0 {
      assert (p + rest)[0] == kw[0];
      assert (p + rest)[1..] == p[1..] + rest;
      assert p[1..] == kw[1..][..|p| - 1];
      IsSameStops(p[1..], kw[1..], rest);
    } else {
      assert p + rest == rest;
    }
  }

  /** The three words and the values they stand for. */
  predicate IsKeyword(kw: string, v: Value) {
    (kw == "true" && v == Bool(true)) || (kw == "false" && v == Bool(false)) || (kw == "null" && v == Null)
  }

  /** Any non-empty prefix of a word that ends the text reads as the word:
      `t`, `fal` and `nu` are accepted. */
  lemma TruncatedKeyword(kw: string, v: Value, n: nat)
    requires IsKeyword(kw, v)
    requires 1 <= n <= |kw|
    ensures Parse(kw[..n]) == Ok(v)
  {
    var p := kw[..n];
    assert p[0] == kw[0];
    if kw == "true" {
      TruncatedTrue(p);
    } else if kw == "false" {
      TruncatedFalse(p);
    } else {
      TruncatedNull(p);
    }
  }

  lemma TruncatedTrue(p: seq<char>)
    requires 1 <= |p| <= 4 && p == "true"[..|p|]
    ensures Parse(p) == Ok(Bool(true))
  {
    assert p[0] == 't';
    ValueReadsKeyword(p);
    IsSameCutShort(p, "true");
  }

  lemma TruncatedFalse(p: seq<char>)
    requires 1 <= |p| <= 5 && p == "false"[..|p|]
    ensures Parse(p) == Ok(Bool(false))
  {
    assert p[0] == 'f';
    ValueReadsKeyword(p);
    assert IsSame(p, "true") == (false, p);
    IsSameCutShort(p, "false");
  }

  lemma TruncatedNull(p: seq<char>)
    requires 1 <= |p| <= 4 && p == "null"[..|p|]
    ensures Parse(p) == Ok(Null)
  {
    assert p[0] == 'n';
    ValueReadsKeyword(p);
    assert IsSame(p, "true") == (false, p);
    assert IsSame(p, "false") == (false, p);
    IsSameCutShort(p, "null");
  }

  /** A failed comparison does not rewind: after a proper prefix of `true`
      or `false`, the next word is tried from where the mismatch was found,
      so `tnull` and `falnull` read as `null`. */
  lemma KeywordResumes(kw: string, n: nat)
    requires kw == "true" || kw == "false"
    requires 1 <= n < |kw|
    ensures Parse(kw[..n] + "null") == Ok(Null)
  {
    var p := kw[..n];
    var t := p + "null";
    assert t[0] == kw[0];
    NullAfterMismatch();
    if kw == "true" {
      IsSameStops(p, "true", "null");
    } else {
      FalseStops(p, t);
    }
    KeywordDocument(t, Null);
  }

  /** A word that the keyword reader takes up to the end of the text is the
      whole document. */
  lemma KeywordDocument(t: seq<char>, v: Value)
    requires |t| > 0 && (t[0] == 't' || t[0] == 'f' || t[0] == 'n')
    requires ParseKeyword(t) == Ok((v, []))
    ensures Parse(t) == Ok(v)
  {
    KeywordStart(t[0]);
    ValueReadsKeyword(t);
    ValueEndsDocument(t, v);
  }

  /** The first byte of a keyword starts no other kind of value. */
  lemma KeywordStart(c: char)
    requires c == 't' || c == 'f' || c == 'n'
    ensures !IsWhitespace(c) && !IsDigit(c) && c != BOM[0]
    ensures c != '{' && c != '[' && c != '-' && c != '"'
  {
  }

  /** A document that opens a string the parser refuses is refused with the
      same error. */
  lemma RejectedString(t: seq<char>, e: Error)
    requires |t| > 0 && t[0] == '"'
    requires ParseString(t) == Err(e)
    ensures Parse(t) == Err(e)
  {
    NoLeadingWhitespace(t);
  }

  /** A value that takes the whole text is the document. */
  lemma ValueEndsDocument(t: seq<char>, v: Value)
    requires |t| > 0 && t[0] != BOM[0]
    requires ParseValue(t) == Ok((v, []))
    ensures Parse(t) == Ok(v)
  {
    assert SkipWhitespaces([]) == [];
  }

  lemma FalseStops(p: seq<char>, t: seq<char>)
    requires 1 <= |p| < 5 && p == "false"[..|p|] && t == p + "null"
    ensures IsSame(t, "true") == (false, t)
    ensures IsSame(t, "false") == (false, "null")
  {
    assert t[0] == 'f';
    IsSameStops(p, "false", "null");
  }

  /** Once `null` is all that is left, the comparisons with `false` and
      `null` find it. */
  lemma NullAfterMismatch()
    ensures IsSame("null", "false") == (false, "null")
    ensures IsSame("null", "null") == (true, [])
  {
    IsSameKeyword("null", []);
    assert "null" + [] == "null";
  }

  /** A byte that starts no value: not whitespace, not the first byte of an
      object, array, number, string or keyword. */
  predicate StartsNoValue(c: char) {
    && !IsWhitespace(c)
    && c != '{' && c != '[' && c != '-' && !IsDigit(c) && c != '"'
    && c != 't' && c != 'f' && c != 'n'
  }

  /** Where the comparison with `kw` may stop at `c` without the words tried
      after `kw` starting there: after a prefix of `true`, `c` starts neither
      `false` nor `null`; after a prefix of `false`, it does not start
      `null`. */
  predicate EndsKeywords(kw: string, n: nat, c: char)
    requires n < |kw|
  {
    && c != kw[n]
    && (kw == "true" ==> c != 'f' && c != 'n')
    && (kw == "false" ==> c != 'n')
  }

  /** A token that is no keyword is an unexpected identifier: either its
      first byte starts no value (`n == 0`), or it follows the first `n`
      bytes of a keyword with a byte that continues neither that keyword nor
      one tried after it (`tx`, `fa!`, `nul?`). */
  lemma UnexpectedIdentifier(kw: string, n: nat, c: char, r: seq<char>)
    requires kw == "true" || kw == "false" || kw == "null"
    requires n < |kw|
    requires n == 0 ==> StartsNoValue(c)
    requires n > 0 ==> EndsKeywords(kw, n, c)
    ensures ParseValue(kw[..n] + ([c] + r)) == Err(ParseError("Unexpected identifier"))
  {
    var t := kw[..n] + ([c] + r);
    if n == 0 {
      assert t == [c] + r;
      NoValueStart(t);
    } else {
      PrefixMismatch(kw, kw[..n], c, r);
    }
  }

  lemma NoValueStart(t: seq<char>)
    requires |t| > 0 && StartsNoValue(t[0])
    ensures ParseValue(t) == Err(ParseError("Unexpected identifier"))
  {
    ValueReadsKeyword(t);
    assert IsSame(t, "true") == (false, t);
    assert IsSame(t, "false") == (false, t);
    assert IsSame(t, "null") == (false, t);
  }

  lemma PrefixMismatch(kw: string, p: seq<char>, c: char, r: seq<char>)
    requires kw == "true" || kw == "false" || kw == "null"
    requires 0 < |p| < |kw| && p == kw[..|p|]
    requires EndsKeywords(kw, |p|, c)
    ensures ParseValue(p + ([c] + r)) == Err(ParseError("Unexpected identifier"))
  {
    var t := p + ([c] + r);
    var u := [c] + r;
    assert t[0] == kw[0];
    ValueReadsKeyword(t);
    IsSameStops(p, kw, u);
    if kw == "true" {
      assert IsSame(u, "false") == (false, u);
      assert IsSame(u, "null") == (false, u);
    } else if kw == "false" {
      assert IsSame(t, "true") == (false, t);
      assert IsSame(u, "null") == (false, u);
    } else {
      assert IsSame(t, "true") == (false, t);
      assert IsSame(t, "false") == (false, t);
    }
  }

  // ---------------------------------------------------------------------------
  // Numbers

  lemma {:induction false} DigitRunOf(ds: seq<char>, rest: seq<char>)
    requires forall i :: 0 <= i < |ds| ==> IsDigit(ds[i])
    requires rest == [] || !IsDigit(rest[0])
    ensures DigitRunLength(ds + rest) == |ds|
  {
    if |ds| > 0 {
      assert (ds + rest)[0] == ds[0];
      assert (ds + rest)[1..] == ds[1..] + rest;
      DigitRunOf(ds[1..], rest);
    } else {
      assert ds + rest == rest;
    }
  }

  function Sign(negative: bool): seq<char> {
    if negative then ['-'] else []
  }

  predicate AllDigits(ds: seq<char>) {
    forall i :: 0 <= i < |ds| ==> IsDigit(ds[i])
  }

  /** Dropping two prefixes at once. */
  lemma DropBoth(a: seq<char>, b: seq<char>, c: seq<char>)
    ensures (a + (b + c))[|a| + |b|..] == c
    ensures (a + (b + c))[..|a| + |b|] == a + b
  {
    assert a + (b + c) == (a + b) + c;
  }

  /** An integer literal: an optional minus sign and digits, leading zeros
      allowed, not followed by a digit or a point. */
  lemma IntegerLiteral(negative: bool, ds: seq<char>, rest: seq<char>)
    requires |ds| > 0 && AllDigits(ds)
    requires rest == [] || (!IsDigit(rest[0]) && rest[0] != '.')
    ensures ParseNumber(Sign(negative) + (ds + rest))
         == Ok((Num(Int(if negative then -(DigitsValue(ds) as int) else DigitsValue(ds))), rest))
  {
    if negative {
      NegativeLiteral(ds, rest);
    } else {
      UnsignedLiteral(ds, rest);
    }
  }

  lemma UnsignedLiteral(ds: seq<char>, rest: seq<char>)
    requires |ds| > 0 && AllDigits(ds)
    requires rest == [] || (!IsDigit(rest[0]) && rest[0] != '.')
    ensures ParseNumber(ds + rest) == Ok((Num(Int(DigitsValue(ds))), rest))
  {
    DigitRunOf(ds, rest);
  }

  lemma NegativeLiteral(ds: seq<char>, rest: seq<char>)
    requires |ds| > 0 && AllDigits(ds)
    requires rest == [] || (!IsDigit(rest[0]) && rest[0] != '.')
    ensures ParseNumber(['-'] + (ds + rest)) == Ok((Num(Int(-(DigitsValue(ds) as int))), rest))
  {
    var u := ds + rest;
    assert (['-'] + u)[1..] == u;
    DigitRunOf(ds, rest);
    assert u[..|ds|] == ds && u[|ds|..] == rest;
    NegativeIntegerStep(['-'] + u, u, ds, rest);
  }

  /** The minus sign, then the digits `ds` as the whole digit run, then no
      point. */
  lemma NegativeIntegerStep(t: seq<char>, u: seq<char>, ds: seq<char>, rest: seq<char>)
    requires |t| > 0 && t[0] == '-' && u == t[1..]
    requires |ds| > 0 && AllDigits(ds) && |u| > 0 && IsDigit(u[0])
    requires DigitRunLength(u) == |ds| && u[..|ds|] == ds && u[|ds|..] == rest
    requires rest == [] || rest[0] != '.'
    ensures ParseNumber(t) == Ok((Num(Int(-(DigitsValue(ds) as int))), rest))
  {
  }

  /** A fractional literal: digits, a point, possibly no digits after it,
      and no exponent. The lexeme is kept as written. */
  lemma FractionLiteral(negative: bool, ds: seq<char>, fs: seq<char>, rest: seq<char>)
    requires |ds| > 0 && AllDigits(ds) && AllDigits(fs)
    requires rest == [] || (!IsDigit(rest[0]) && rest[0] != 'e' && rest[0] != 'E')
    ensures var r := ParseNumber(Sign(negative) + (ds + (['.'] + (fs + rest))));
      && r.Ok? && r.value.0.Num? && r.value.0.n.Frac?
      && r.value.0.n.lexeme == Sign(negative) + ds + ['.'] + fs
      && r.value.1 == rest
  {
    FractionPart(negative, ds, fs, rest);
  }

  /** An exponent after the fractional part: `e` or `E`, an optional sign,
      at least one digit. */
  lemma ExponentLiteral(negative: bool, ds: seq<char>, fs: seq<char>, e: char, esign: seq<char>, es: seq<char>, rest: seq<char>)
    requires |ds| > 0 && AllDigits(ds) && AllDigits(fs)
    requires e == 'e' || e == 'E'
    requires esign == [] || esign == ['+'] || esign == ['-']
    requires |es| > 0 && AllDigits(es)
    requires rest == [] || !IsDigit(rest[0])
    ensures var r := ParseNumber(Sign(negative) + (ds + (['.'] + (fs + ([e] + (esign + (es + rest)))))));
      && r.Ok? && r.value.0.Num? && r.value.0.n.Frac?
      && r.value.0.n.lexeme == Sign(negative) + ds + ['.'] + fs + ([e] + esign + es)
      && r.value.1 == rest
  {
    var x := [e] + (esign + (es + rest));
    var lexeme: Lexeme := NumberLexeme(negative, ds, fs);
    FractionPart(negative, ds, fs, x);
    ExponentPart(lexeme, e, esign, es, rest);
  }

  function NumberLexeme(negative: bool, ds: seq<char>, fs: seq<char>): (r: Lexeme)
    requires AllDigits(ds) && AllDigits(fs)
    ensures r == Sign(negative) + ds + ['.'] + fs
  {
    var r := Sign(negative) + ds + ['.'] + fs;
    assert forall i :: 0 <= i < |r| ==> IsNumberChar(r[i]) by {
      forall i | 0 <= i < |r|
        ensures IsNumberChar(r[i])
      {
        if i >= |Sign(negative)| + |ds| + 1 {
          assert r[i] == fs[i - |Sign(negative)| - |ds| - 1];
        } else if i >= |Sign(negative)| && i < |Sign(negative)| + |ds| {
          assert r[i] == ds[i - |Sign(negative)|];
        }
      }
    }
    r
  }

  /** Digits, a point and digits are read, and the exponent is looked for in
      what follows. */
  lemma FractionPart(negative: bool, ds: seq<char>, fs: seq<char>, x: seq<char>)
    requires |ds| > 0 && AllDigits(ds) && AllDigits(fs)
    requires x == [] || !IsDigit(x[0])
    ensures ParseNumber(Sign(negative) + (ds + (['.'] + (fs + x)))) == ParseExponent(NumberLexeme(negative, ds, fs), x)
  {
    var t := Sign(negative) + (ds + (['.'] + (fs + x)));
    var u := ds + (['.'] + (fs + x));
    var after := ['.'] + (fs + x);
    assert t[0] == (if negative then '-' else ds[0]);
    assert t[..|Sign(negative)|] == Sign(negative) && t[|Sign(negative)|..] == u;
    DigitRunOf(ds, after);
    assert u[..|ds|] == ds && u[|ds|..] == after;
    assert after[1..] == fs + x;
    DigitRunOf(fs, x);
    DropBoth(['.'], fs, x);
    FractionStep(t, Sign(negative), u, ds, after, fs, x, NumberLexeme(negative, ds, fs));
  }

  /** The sign `sg`, the digit run `ds`, a point, the digit run `fs`: the
      exponent is looked for in `x`. */
  lemma FractionStep(t: seq<char>, sg: seq<char>, u: seq<char>, ds: seq<char>, after: seq<char>, fs: seq<char>, x: seq<char>, lexeme: Lexeme)
    requires |t| > 0 && sg == (if t[0] == '-' then ['-'] else [])
    requires t[..|sg|] == sg && u == t[|sg|..]
    requires |ds| > 0 && AllDigits(ds) && AllDigits(fs)
    requires |u| > 0 && IsDigit(u[0]) && DigitRunLength(u) == |ds| && u[..|ds|] == ds && u[|ds|..] == after
    requires |after| > 0 && after[0] == '.'
    requires DigitRunLength(after[1..]) == |fs| && after[1..][..|fs|] == fs && after[1 + |fs|..] == x
    requires lexeme == sg + ds + ['.'] + fs
    ensures ParseNumber(t) == ParseExponent(lexeme, x)
  {
    var sign := if t[0] == '-' then 1 else 0;
    assert |sg| == sign && t[sign..] == u && t[..sign] == sg;
    assert NumberChars(u[..|ds|]) == ds && NumberChars(after[1..][..|fs|]) == fs;
  }

  lemma ExponentPart(lexeme: Lexeme, e: char, esign: seq<char>, es: seq<char>, rest: seq<char>)
    requires e == 'e' || e == 'E'
    requires esign == [] || esign == ['+'] || esign == ['-']
    requires |es| > 0 && AllDigits(es)
    requires rest == [] || !IsDigit(rest[0])
    ensures var r := ParseExponent(lexeme, [e] + (esign + (es + rest)));
      && r.Ok? && r.value.0.Num? && r.value.0.n.Frac?
      && r.value.0.n.lexeme == lexeme + ([e] + esign + es)
      && r.value.1 == rest
  {
    var x := [e] + (esign + (es + rest));
    DropBoth([e], esign, es + rest);
    assert x[1] == (if esign == [] then es[0] else esign[0]);
    DigitRunOf(es, rest);
  }

  /** `e` or `E` after the fractional part must lead to a digit. */
  lemma ExponentNeedsDigit(negative: bool, ds: seq<char>, fs: seq<char>, e: char, esign: seq<char>, rest: seq<char>)
    requires |ds| > 0 && AllDigits(ds) && AllDigits(fs)
    requires e == 'e' || e == 'E'
    requires esign == [] || esign == ['+'] || esign == ['-']
    requires rest == [] || (!IsDigit(rest[0]) && rest[0] != '+' && rest[0] != '-')
    ensures ParseNumber(Sign(negative) + (ds + (['.'] + (fs + ([e] + (esign + rest)))))) == Err(ParseError("Invalid exponent"))
  {
    var x := [e] + (esign + rest);
    FractionPart(negative, ds, fs, x);
    assert esign + rest == esign + (rest + []);
    DropBoth([e], esign, rest + []);
    assert rest + [] == rest;
  }

  /** A minus sign must be followed by a digit. */
  lemma MinusNeedsDigit(rest: seq<char>)
    requires rest == [] || !IsDigit(rest[0])
    ensures ParseNumber(['-'] + rest) == Err(ParseError("Invalid number"))
  {
    assert (['-'] + rest)[1..] == rest;
  }

  /** An exponent is only read after a point: in `1e5` the number ends
      before the `e`, which the document then rejects. */
  lemma NoExponentWithoutPoint(negative: bool, ds: seq<char>, rest: seq<char>)
    requires |ds| > 0 && AllDigits(ds)
    ensures Parse(Sign(negative) + (ds + (['e'] + rest))) == Err(ParseError("Unexpected data"))
  {
    var t := Sign(negative) + (ds + (['e'] + rest));
    var v := Num(Int(if negative then -(DigitsValue(ds) as int) else DigitsValue(ds)));
    NumberStopsBeforeE(negative, ds, rest);
    assert t[0] == (if negative then '-' else ds[0]);
    DataAfterValue(t, v, ['e'] + rest);
  }

  lemma NumberStopsBeforeE(negative: bool, ds: seq<char>, rest: seq<char>)
    requires |ds| > 0 && AllDigits(ds)
    ensures ParseValue(Sign(negative) + (ds + (['e'] + rest)))
         == Ok((Num(Int(if negative then -(DigitsValue(ds) as int) else DigitsValue(ds))), ['e'] + rest))
  {
    var t := Sign(negative) + (ds + (['e'] + rest));
    IntegerLiteral(negative, ds, ['e'] + rest);
    assert t[0] == (if negative then '-' else ds[0]);
    ValueReadsNumber(t);
  }

  lemma DataAfterValue(t: seq<char>, v: Value, rest: seq<char>)
    requires |t| > 0 && t[0] != BOM[0]
    requires ParseValue(t) == Ok((v, rest))
    requires |rest| > 0 && !IsWhitespace(rest[0])
    ensures Parse(t) == Err(ParseError("Unexpected data"))
  {
    NoLeadingWhitespace(rest);
    TrailingData(t, v, rest);
  }

  /** After the value a document holds whitespace alone; anything else,
      straight after the value or after some whitespace, is "Unexpected
      data". */
  lemma TrailingData(t: seq<char>, v: Value, rest: seq<char>)
    requires |t| > 0 && t[0] != BOM[0]
    requires ParseValue(t) == Ok((v, rest))
    ensures Parse(t) == if SkipWhitespaces(rest) == [] then Ok(v) else Err(ParseError("Unexpected data"))
  {
  }

  // ---------------------------------------------------------------------------
  // Strings

  /** Bytes a string literal holds as themselves. */
  predicate IsPlain(p: seq<char>) {
    forall i :: 0 <= i < |p| ==> p[i] != '"' && p[i] != '\\' && !IsControl(p[i])
  }

  /** Plain bytes are copied one for one; what follows them decides the
      outcome. */
  lemma {:induction false} PlainCopied(p: seq<char>, t: seq<char>)
    requires IsPlain(p)
    ensures ParseStringBody(t).Ok? ==> ParseStringBody(p + t) == Ok((p + ParseStringBody(t).value.0, ParseStringBody(t).value.1))
    ensures ParseStringBody(t).Err? ==> ParseStringBody(p + t) == ParseStringBody(t)
  {
    if |p| > 0 {
      assert (p + t)[0] == p[0];
      assert (p + t)[1..] == p[1..] + t;
      PlainStep(p + t);
      PlainCopied(p[1..], t);
      if ParseStringBody(t).Ok? {
        assert [p[0]] + (p[1..] + ParseStringBody(t).value.0) == p + ParseStringBody(t).value.0;
      }
    } else {
      assert p + t == t;
      if ParseStringBody(t).Ok? {
        assert p + ParseStringBody(t).value.0 == ParseStringBody(t).value.0;
      }
    }
  }

  /** One plain byte is copied and reading goes on after it. */
  lemma PlainStep(s: seq<char>)
    requires |s| > 0 && s[0] != '"' && s[0] != '\\' && !IsControl(s[0])
    ensures ParseStringBody(s)
         == if ParseStringBody(s[1..]).Ok?
            then Ok(([s[0]] + ParseStringBody(s[1..]).value.0, ParseStringBody(s[1..]).value.1))
            else ParseStringBody(s[1..])
  {
  }

  lemma OpenQuote(p: seq<char>, t: seq<char>)
    ensures ParseString(['"'] + p + t) == ParseStringBody(p + t)
  {
    assert (['"'] + p + t)[1..] == p + t;
  }

  /** Plain bytes between quotes are the string, byte for byte. */
  lemma StringLiteral(p: seq<char>, rest: seq<char>)
    requires IsPlain(p)
    ensures ParseString(['"'] + p + (['"'] + rest)) == Ok((p, rest))
  {
    OpenQuote(p, ['"'] + rest);
    PlainCopied(p, ['"'] + rest);
    assert p + [] == p;
  }

  /** A `\u` escape is always rejected. */
  lemma UnicodeEscapeRejected(p: seq<char>, t: seq<char>)
    requires IsPlain(p)
    ensures ParseString(['"'] + p + (['\\', 'u'] + t)) == Err(ParseError("Invalid character code"))
  {
    OpenQuote(p, ['\\', 'u'] + t);
    PlainCopied(p, ['\\', 'u'] + t);
  }

  /** A backslash before a letter outside `"\/bfnrtu` is rejected. */
  lemma UnknownEscapeRejected(p: seq<char>, c: char, t: seq<char>)
    requires IsPlain(p)
    requires !IsEscapeLetter(c) && c != 'u'
    ensures ParseString(['"'] + p + (['\\', c] + t)) == Err(ParseError("Unrecognized escape character"))
  {
    OpenQuote(p, ['\\', c] + t);
    PlainCopied(p, ['\\', c] + t);
  }

  /** A raw control byte ends the literal with an error. */
  lemma ControlByteRejected(p: seq<char>, c: char, t: seq<char>)
    requires IsPlain(p)
    requires IsControl(c)
    ensures ParseString(['"'] + p + ([c] + t)) == Err(ParseError("Unterminated string literal"))
  {
    OpenQuote(p, [c] + t);
    PlainCopied(p, [c] + t);
  }

  /** Text ending inside a literal is rejected: after plain bytes, or right
      after a backslash. */
  lemma UnterminatedString(p: seq<char>)
    requires IsPlain(p)
    ensures ParseString(['"'] + p) == Err(ParseError("Invalid string"))
    ensures ParseString(['"'] + p + ['\\']) == Err(ParseError("Unterminated string literal"))
  {
    OpenQuote(p, []);
    PlainCopied(p, []);
    assert ['"'] + p + [] == ['"'] + p;
    assert p + [] == p;
    OpenQuote(p, ['\\']);
    PlainCopied(p, ['\\']);
  }

  // ---------------------------------------------------------------------------
  // One step of the parser each

  lemma ValueOpensObject(t: seq<char>)
    requires |t| > 0 && t[0] == '{'
    ensures ParseValue(t) == ParseMembers(t[1..], map[], true)
  {
    NoLeadingWhitespace(t);
  }

  lemma ValueOpensArray(t: seq<char>)
    requires |t| > 0 && t[0] == '['
    ensures ParseValue(t) == ParseElements(t[1..], [], true)
  {
    NoLeadingWhitespace(t);
    assert t[0] != '{';
  }

  /** `{}` is an object with no members. */
  lemma ObjectOpenClose(t: seq<char>)
    requires |t| >= 2 && t[0] == '{' && t[1] == '}'
    ensures ParseValue(t) == Ok((Obj(map[]), t[2..]))
  {
    ValueOpensObject(t);
    MembersCloseNow(t[1..], map[], true);
    assert t[1..][1..] == t[2..];
  }

  /** `[]` is an array with no elements. */
  lemma ArrayOpenClose(t: seq<char>)
    requires |t| >= 2 && t[0] == '[' && t[1] == ']'
    ensures ParseValue(t) == Ok((Arr([]), t[2..]))
  {
    ValueOpensArray(t);
    ElementsCloseNow(t[1..], [], true);
    assert t[1..][1..] == t[2..];
  }

  lemma MembersCloseNow(s: seq<char>, acc: map<string, Value>, first: bool)
    requires |s| > 0 && s[0] == '}'
    ensures ParseMembers(s, acc, first) == Ok((Obj(acc), s[1..]))
  {
    NoLeadingWhitespace(s);
  }

  lemma ElementsCloseNow(s: seq<char>, acc: seq<Value>, first: bool)
    requires |s| > 0 && s[0] == ']'
    ensures ParseElements(s, acc, first) == Ok((Arr(acc), s[1..]))
  {
    NoLeadingWhitespace(s);
  }

  /** A comma before the first element is read as the start of a value,
      and no value starts with `,`: `[,1]` is an unexpected identifier. */
  lemma ElementsLeadingComma(s: seq<char>, acc: seq<Value>)
    requires |SkipWhitespaces(s)| > 0 && SkipWhitespaces(s)[0] == ','
    ensures ParseElements(s, acc, true) == Err(ParseError("Unexpected identifier"))
  {
    var t := SkipWhitespaces(s);
    NoValueStart(t);
  }

  /** A comma before the first member is read as the start of a key:
      `{,"a":1}` is an invalid string. */
  lemma MembersLeadingComma(s: seq<char>, acc: map<string, Value>)
    requires |SkipWhitespaces(s)| > 0 && SkipWhitespaces(s)[0] == ','
    ensures ParseMembers(s, acc, true) == Err(ParseError("Invalid string"))
  {
  }

  lemma ValueReadsNumber(t: seq<char>)
    requires |t| > 0 && (t[0] == '-' || IsDigit(t[0]))
    ensures ParseValue(t) == ParseNumber(t)
  {
    NoLeadingWhitespace(t);
    assert t[0] != '{' && t[0] != '[';
  }

  lemma ValueReadsString(t: seq<char>, s: string, rest: seq<char>)
    requires ParseString(t) == Ok((s, rest))
    ensures ParseValue(t) == Ok((Str(s), rest))
  {
    NoLeadingWhitespace(t);
    assert t[0] == '"';
  }

  lemma ValueReadsKeyword(t: seq<char>)
    requires |t| > 0 && !IsWhitespace(t[0])
    requires t[0] != '{' && t[0] != '[' && t[0] != '-' && !IsDigit(t[0]) && t[0] != '"'
    ensures ParseValue(t) == ParseKeyword(t)
  {
    NoLeadingWhitespace(t);
  }

  lemma ElementsClose(s: seq<char>, acc: seq<Value>, first: bool, rest: seq<char>)
    requires SkipWhitespaces(s) == [']'] + rest
    ensures ParseElements(s, acc, first) == Ok((Arr(acc), rest))
  {
    assert ([']'] + rest)[1..] == rest;
  }

  lemma ElementsFirstStep(s: seq<char>, acc: seq<Value>, v: Value, after: seq<char>)
    requires |SkipWhitespaces(s)| > 0 && SkipWhitespaces(s)[0] != ']'
    requires ParseValue(SkipWhitespaces(s)) == Ok((v, after))
    ensures ParseElements(s, acc, true) == ParseElements(after, acc + [v], false)
  {
  }

  lemma ElementsNextStep(s: seq<char>, acc: seq<Value>, v: Value, after: seq<char>)
    requires |s| > 0 && s[0] == ','
    requires ParseValue(SkipWhitespaces(s[1..])) == Ok((v, after))
    ensures ParseElements(s, acc, false) == ParseElements(after, acc + [v], false)
  {
    CommaLeads(s);
    ElementsCommaStep(s, acc, v, after);
  }

  lemma ElementsCommaStep(s: seq<char>, acc: seq<Value>, v: Value, after: seq<char>)
    requires |SkipWhitespaces(s)| > 0 && SkipWhitespaces(s)[0] == ','
    requires ParseValue(SkipWhitespaces(SkipWhitespaces(s)[1..])) == Ok((v, after))
    ensures ParseElements(s, acc, false) == ParseElements(after, acc + [v], false)
  {
    var t := SkipWhitespaces(s);
    assert t[0] != ']';
  }

  /** Text that starts with a comma is left as it is. */
  lemma CommaLeads(s: seq<char>)
    requires |s| > 0 && s[0] == ','
    ensures SkipWhitespaces(s) == s
  {
    NoLeadingWhitespace(s);
  }

  /** Text that does not start with whitespace is left as it is. */
  lemma NoLeadingWhitespace(s: seq<char>)
    requires |s| > 0 && !IsWhitespace(s[0])
    ensures SkipWhitespaces(s) == s
  {
  }

  lemma MembersClose(s: seq<char>, acc: map<string, Value>, first: bool, rest: seq<char>)
    requires SkipWhitespaces(s) == ['}'] + rest
    ensures ParseMembers(s, acc, first) == Ok((Obj(acc), rest))
  {
    assert (['}'] + rest)[1..] == rest;
  }

  /** A key, optional whitespace, a colon, then the value and what follows
      it. */
  predicate ReadsMember(u: seq<char>, k: string, v: Value, after: seq<char>) {
    && ParseString(u).Ok?
    && ParseString(u).value.0 == k
    && var c := SkipWhitespaces(ParseString(u).value.1);
    && |c| > 0 && c[0] == ':'
    && ParseValue(SkipWhitespaces(c[1..])) == Ok((v, after))
  }

  lemma MembersFirstStep(s: seq<char>, acc: map<string, Value>, k: string, v: Value, after: seq<char>)
    requires |SkipWhitespaces(s)| > 0 && SkipWhitespaces(s)[0] != '}'
    requires ReadsMember(SkipWhitespaces(s), k, v, after)
    ensures ParseMembers(s, acc, true) == ParseMembers(after, acc[k := v], false)
  {
  }

  lemma MembersNextStep(s: seq<char>, acc: map<string, Value>, k: string, v: Value, after: seq<char>)
    requires |s| > 0 && s[0] == ','
    requires ReadsMember(SkipWhitespaces(s[1..]), k, v, after)
    ensures ParseMembers(s, acc, false) == ParseMembers(after, acc[k := v], false)
  {
    CommaLeads(s);
    MembersCommaStep(s, acc, k, v, after);
  }

  lemma MembersCommaStep(s: seq<char>, acc: map<string, Value>, k: string, v: Value, after: seq<char>)
    requires |SkipWhitespaces(s)| > 0 && SkipWhitespaces(s)[0] == ','
    requires ReadsMember(SkipWhitespaces(SkipWhitespaces(s)[1..]), k, v, after)
    ensures ParseMembers(s, acc, false) == ParseMembers(after, acc[k := v], false)
  {
  }

  /** `MembersCommaStep` with the text after the comma and its layout named
      `u`. */
  lemma MembersCommaTo(s: seq<char>, u: seq<char>, acc: map<string, Value>, k: string, v: Value, after: seq<char>)
    requires |SkipWhitespaces(s)| > 0 && SkipWhitespaces(s)[0] == ','
    requires SkipWhitespaces(SkipWhitespaces(s)[1..]) == u
    requires ReadsMember(u, k, v, after)
    ensures ParseMembers(s, acc, false) == ParseMembers(after, acc[k := v], false)
  {
    MembersCommaStep(s, acc, k, v, after);
  }

  /** `ElementsCommaStep` with the text after the comma and its layout named
      `u`. */
  lemma ElementsCommaTo(s: seq<char>, u: seq<char>, acc: seq<Value>, v: Value, after: seq<char>)
    requires |SkipWhitespaces(s)| > 0 && SkipWhitespaces(s)[0] == ','
    requires SkipWhitespaces(SkipWhitespaces(s)[1..]) == u
    requires ParseValue(u) == Ok((v, after))
    ensures ParseElements(s, acc, false) == ParseElements(after, acc + [v], false)
  {
    ElementsCommaStep(s, acc, v, after);
  }

  /** After an element, text that is neither `,` nor `]` is rejected, with
      the library's message. */
  lemma ElementsMissingComma(s: seq<char>, acc: seq<Value>)
    requires |SkipWhitespaces(s)| > 0
    requires SkipWhitespaces(s)[0] != ']' && SkipWhitespaces(s)[0] != ','
    ensures ParseElements(s, acc, false) == Err(ParseError("Invalid object"))
  {
  }

  /** An array still open at the end of the text. */
  lemma ElementsUnclosed(s: seq<char>, acc: seq<Value>, first: bool)
    requires SkipWhitespaces(s) == []
    ensures ParseElements(s, acc, first) == Err(ParseError("Invalid array"))
  {
  }

  /** What follows a comma in an array must be a value. */
  lemma ElementsCommaError(s: seq<char>, acc: seq<Value>, e: Error)
    requires |SkipWhitespaces(s)| > 0 && SkipWhitespaces(s)[0] == ','
    requires ParseValue(SkipWhitespaces(SkipWhitespaces(s)[1..])) == Err(e)
    ensures ParseElements(s, acc, false) == Err(e)
  {
  }

  /** After a member, text that is neither `,` nor `}` is rejected. */
  lemma MembersMissingComma(s: seq<char>, acc: map<string, Value>)
    requires |SkipWhitespaces(s)| > 0
    requires SkipWhitespaces(s)[0] != '}' && SkipWhitespaces(s)[0] != ','
    ensures ParseMembers(s, acc, false) == Err(ParseError("Invalid object"))
  {
  }

  /** An object still open at the end of the text. */
  lemma MembersUnclosed(s: seq<char>, acc: map<string, Value>, first: bool)
    requires SkipWhitespaces(s) == []
    ensures ParseMembers(s, acc, first) == Err(ParseError("Invalid object"))
  {
  }

  /** What follows a comma in an object must be a key. */
  lemma MembersCommaError(s: seq<char>, acc: map<string, Value>, e: Error)
    requires |SkipWhitespaces(s)| > 0 && SkipWhitespaces(s)[0] == ','
    requires ParseString(SkipWhitespaces(SkipWhitespaces(s)[1..])) == Err(e)
    ensures ParseMembers(s, acc, false) == Err(e)
  {
  }

  /** A key must be followed by a colon. */
  lemma MembersMissingColon(s: seq<char>, acc: map<string, Value>, k: string, c: seq<char>)
    requires |SkipWhitespaces(s)| > 0 && SkipWhitespaces(s)[0] != '}'
    requires ParseString(SkipWhitespaces(s)) == Ok((k, c))
    requires SkipWhitespaces(c) == [] || SkipWhitespaces(c)[0] != ':'
    ensures ParseMembers(s, acc, true) == Err(ParseError("Invalid object"))
  {
  }
}
