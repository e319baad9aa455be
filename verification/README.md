# A Dafny model of elnormous/json

`json.hpp` is a single-header C++17 JSON library. This project models its
three parts:

- The `json::Value` tagged union. It holds null, a boolean, a number (always
  a `double`), a string, an object (`std::map<std::string, Value>`) or an
  array (`std::vector<Value>`). Its accessors come in two kinds. The
  read-only ones throw `TypeError` or `RangeError`. The mutable ones replace
  a value of the wrong type with an empty one of the requested type.
- `json::parse`, a recursive-descent parser over bytes. It skips an optional
  UTF-8 byte-order mark, reads one value, and then accepts only whitespace.
- `json::encode`, which writes a value compactly or laid out with newlines
  and tabs, optionally after a byte-order mark.

The model is pure and functional:

- Text is a `seq<char>` in which each `char` stands for one unsigned byte.
- A `Value` is an immutable datatype.
- A parser step takes the unread rest of the input. It returns
  `Result<(Value, rest)>`, so the position is the length of what was
  consumed.
- Every mutation returns the updated value. A mutable accessor returns the
  updated value and the part that the C++ reference denotes.
- Errors are `ParseError`, `TypeError` and `RangeError`, carrying the
  library's own messages.

Files:

- `errors.dfy`: errors and `Result`.
- `chars.dfy`: byte classes and decimal digits.
- `value.dfy`: `Value` and its accessors.
- `keyorder.dfy`: the order of `std::map` keys.
- `parser.dfy`: the parser.
- `encoder.dfy`: the encoder and its layout properties.
- `parserfacts.dfy`: one lemma per grammar rule and per error path.
- `roundtrip.dfy`: `parse(encode(v)) == v`.
- `documents.dfy`: documents built from encoded values, accepted and
  rejected.
- `examples.dfy`: every document that the library's test suite parses, and
  parts of its encoding test.
- `findings.dfy`: the escaper as it behaves where `char` is signed.

The model keeps these behaviours of the code exactly as written:

- Leading zeros and a bare `1.` are accepted.
- An exponent is read only after a fractional part. In `1e5` the integer ends
  before `e`, and the rest is refused as trailing data.
- `isSame` accepts a keyword cut short by the end of input, so `tr` reads as
  `true`. After a mismatch it does not rewind, so `tnull` reads as `null`.
- After `\u` the parser still looks at the `u`, so every `\u` escape is
  refused with "Invalid character code". The hexadecimal and UTF-8 decoding
  after it can never run.
- A repeated key overwrites the earlier one.
- A missing comma between array elements is reported as "Invalid object",
  because the array branch reuses the object message.
- `operator=(nullptr)` returns without changing the value.
- The library's tests check parse results through `getType()` and
  `Type::integer`, which this header does not have. The model states the
  values that the parser code itself produces.

## Model

| member | source | states |
|---|---|---|
| JsonValue.Construct | include/json.hpp:45-60 | Each converting constructor builds a value with the argument's type tag that holds the argument's payload. |
| JsonValue.Assign | include/json.hpp:62-102 | Assigning a bool, number, string, object or array gives a value of that kind whose accessor returns exactly what was assigned; `= nullptr` leaves the value as it was. |
| JsonValue.AssignNullKeepsValue | include/json.hpp:87-90 | Assigning `nullptr` to a non-null value keeps it non-null, so assignment differs from construction from `nullptr`. |
| JsonValue.AsBool | include/json.hpp:146-153 | Read-only `as<bool>` succeeds exactly on a boolean and returns its payload; otherwise it fails with `TypeError("Wrong type")`. |
| JsonValue.AsNumber | include/json.hpp:167-174 | Read-only arithmetic `as<T>` succeeds exactly on a number; otherwise `TypeError`. |
| JsonValue.AsString | include/json.hpp:116-132 | Read-only `as<std::string>` and `as<const char*>` succeed exactly on a string; otherwise `TypeError`. |
| JsonValue.AsObject | include/json.hpp:188-195 | Read-only `as<Object>` succeeds exactly on an object; otherwise `TypeError`. |
| JsonValue.AsArray | include/json.hpp:209-216 | Read-only `as<Array>` succeeds exactly on an array; otherwise `TypeError`. |
| JsonValue.Elements | include/json.hpp:218-248 | `begin()`/`end()` delimit the array's elements in stored order, and throw `TypeError` on any other type, even when not const. |
| JsonValue.HasMember | include/json.hpp:292-298 | `hasMember` answers key membership on an object and fails with `TypeError` on any other type. |
| JsonValue.GetMember | include/json.hpp:311-323 | Const `[key]` returns the member when the key is present, `RangeError("Member does not exist")` when it is absent, and `TypeError` on a non-object. |
| JsonValue.GetSize | include/json.hpp:351-357 | `getSize` is the array's length, or `TypeError` on a non-array. |
| JsonValue.GetIndex | include/json.hpp:339-349 | Const `[i]` returns element `i` when `i` is below the size, `RangeError("Index out of range")` when it is not, and `TypeError` on a non-array. |
| JsonValue.ResizeSeq | include/json.hpp:359-365 | `std::vector::resize`: the new length is the requested size, surviving elements are kept, and new slots are null. |
| JsonValue.Resize | include/json.hpp:359-365 | `resize` on an array gives exactly the requested size with the old prefix kept and null padding; on any other type it fails with `TypeError`. |
| JsonValue.PushBack | include/json.hpp:367-373 | `pushBack` on an array grows it by one, keeps the old elements, and puts the new one last; on any other type it fails with `TypeError`. |
| JsonValue.AsBoolMut | include/json.hpp:134-144 | Mutable `as<bool>` leaves a boolean unchanged and returns it; any other value becomes `false`. Afterwards read-only `as<bool>` succeeds with the returned payload. |
| JsonValue.AsNumberMut | include/json.hpp:155-165 | Mutable arithmetic `as<T>` leaves a number unchanged; any other value becomes `0.0`. |
| JsonValue.AsStringMut | include/json.hpp:104-114 | Mutable `as<std::string>` leaves a string unchanged; any other value becomes the empty string. |
| JsonValue.AsObjectMut | include/json.hpp:176-186 | Mutable `as<Object>` leaves an object unchanged; any other value becomes the empty object. |
| JsonValue.AsArrayMut | include/json.hpp:197-207 | Mutable `as<Array>` leaves an array unchanged; any other value becomes the empty array. |
| JsonValue.MemberMut | include/json.hpp:300-309 | Mutable `[key]` turns a non-object into an empty object and inserts a missing key with a null value. Existing members stay unchanged, and afterwards const `[key]` returns the referenced member. |
| JsonValue.SetMember | include/json.hpp:300-309 | `v[key] = x` makes const `[key]` return `x`, adds only `key` to the key set, and leaves every other member unchanged. |
| JsonValue.IndexMut | include/json.hpp:325-337 | Mutable `[i]` grows an array to `max(size, i + 1)`, keeps the old prefix, and fills new slots with null. A non-array becomes exactly `i + 1` nulls. |
| JsonValue.SetIndex | include/json.hpp:325-337 | `v[i] = x` makes const `[i]` return `x`. Every other old element is unchanged, and every other new slot is null. |
| JsonValue.ReadAfterMutableAccess | include/json.hpp:300-349 | Where the const accessor succeeds, the mutable one agrees with it and changes nothing. After the mutable one, the const one always succeeds. |
| KeyOrder.BelowTotal | include/json.hpp:43 | Byte-wise key comparison orders any two strings. |
| KeyOrder.BelowTransitive | include/json.hpp:43 | Byte-wise key comparison is transitive. |
| KeyOrder.BelowAntisymmetric | include/json.hpp:43 | Two strings that each sort no later than the other are equal. |
| KeyOrder.SortedKeys | include/json.hpp:796-808 | An object is iterated with each key exactly once, in strictly ascending byte order. |
| KeyOrder.SortedListingUnique | include/json.hpp:796-808 | Any strictly ascending listing of the key set is exactly the iteration order. |
| JsonParser.HasByteOrderMark | include/json.hpp:403-411 | True exactly when the input starts with the three bytes EF BB BF. |
| JsonParser.SkipWhitespaces | include/json.hpp:413-423 | Drops exactly the leading run of space, tab, CR and LF. The rest is a suffix of the input and does not start with whitespace. |
| JsonParser.IsSame | include/json.hpp:425-440 | Consumes the longest common prefix of input and keyword. It reports success when the whole keyword matched or the input ran out, and on failure it stops at the first mismatching byte without rewinding. |
| JsonParser.DigitRunLength | include/json.hpp:539-545 | Counts the leading run of decimal digits. |
| JsonParser.Unescape | include/json.hpp:642-651 | The eight short escapes decode to bytes that the encoder can write back. |
| JsonParser.ParseString | include/json.hpp:625-718 | A string must open with `"`, or it fails with "Invalid string". A decoded string contains only bytes that round-trip, every failure is a `ParseError`, and input is consumed. |
| JsonParser.ParseStringBody | include/json.hpp:635-711 | The body of a string literal up to its closing quote: short escapes decoded, raw control bytes refused, other bytes copied. |
| JsonParser.ParseNumber | include/json.hpp:523-593 | A number read at a `-` or a digit is always a number, and it consumes input; a failure is a `ParseError`. |
| JsonParser.ParseExponent | include/json.hpp:564-592 | After a fractional part, an optional exponent; the result is a fractional number. |
| JsonParser.ParseKeyword | include/json.hpp:600-622 | A keyword reads as `true`, `false` or `null`; anything else fails with "Unexpected identifier". |
| JsonParser.ParseValue | include/json.hpp:442-623 | One value after optional whitespace; it consumes input, every failure is a `ParseError`, and every string in the result round-trips. |
| JsonParser.ParseMembers | include/json.hpp:449-489 | The members of an object: the result is an object holding at least the keys read so far. |
| JsonParser.ParseElements | include/json.hpp:490-522 | The elements of an array: the result is an array. |
| JsonParser.Parse | include/json.hpp:391-400 | A whole document; every failure is a `ParseError`. |
| JsonParserFacts.SkipWhitespacePrefix | include/json.hpp:418-423 | Whitespace in front of any text is skipped entirely. |
| JsonParserFacts.BlankInput | include/json.hpp:444-447 | Empty or whitespace-only input fails with "Unexpected end of data". |
| JsonParserFacts.ByteOrderMarkSkipped | include/json.hpp:391-394 | A leading byte-order mark does not change the result. |
| JsonParserFacts.SecondByteOrderMark | include/json.hpp:391-394 | Only one byte-order mark is skipped; a second one fails with "Unexpected identifier". |
| JsonParserFacts.IsSameKeyword | include/json.hpp:425-440 | The full keyword matches and consumes exactly the keyword. |
| JsonParserFacts.IsSameCutShort | include/json.hpp:430-439 | A prefix of the keyword at the end of input matches. |
| JsonParserFacts.IsSameStops | include/json.hpp:430-433 | A mismatch after a matching prefix fails and leaves the iterator past that prefix. |
| JsonParserFacts.TruncatedKeyword | include/json.hpp:600-619 | Every non-empty prefix of `true`, `false` or `null` is a document meaning that keyword. |
| JsonParserFacts.TruncatedTrue | include/json.hpp:606-609 | Every non-empty prefix of `true` is the document `true`. |
| JsonParserFacts.TruncatedFalse | include/json.hpp:606-614 | Every non-empty prefix of `false` is the document `false`. |
| JsonParserFacts.TruncatedNull | include/json.hpp:606-619 | Every non-empty prefix of `null` is the document `null`. |
| JsonParserFacts.KeywordResumes | include/json.hpp:606-619 | A proper prefix of `true` or `false` followed by `null` reads as `null`, because a failed candidate is not rewound. |
| JsonParserFacts.KeywordDocument | include/json.hpp:391-399 | A keyword read up to the end of the text is the whole document. |
| JsonParserFacts.KeywordStart | include/json.hpp:444-600 | The first byte of `true`, `false` or `null` is not whitespace or the byte-order mark's first byte, and it starts no object, array, number or string. |
| JsonParserFacts.RejectedString | include/json.hpp:391-399 | A document that opens a string the parser refuses fails with the same error. |
| JsonParserFacts.FalseStops | include/json.hpp:606-614 | A prefix of `false` followed by `null` fails `true` at once and fails `false` at the `n`. |
| JsonParserFacts.NullAfterMismatch | include/json.hpp:611-619 | `null` fails `false` without consuming and then matches `null`. |
| JsonParserFacts.UnexpectedIdentifier | include/json.hpp:600-621 | Two cases fail with "Unexpected identifier". One is a value whose first byte starts no value. The other is a non-empty proper prefix of `true`, `false` or `null` followed by a byte that continues no keyword from there. |
| JsonParserFacts.NoValueStart | include/json.hpp:600-621 | Text starting with a byte other than whitespace, `{`, `[`, `-`, a digit, `"`, `t`, `f` or `n` fails with "Unexpected identifier". |
| JsonParserFacts.PrefixMismatch | include/json.hpp:606-621 | A prefix of a keyword followed by a byte that neither continues it nor restarts a later keyword fails with "Unexpected identifier". |
| JsonParserFacts.ElementsLeadingComma | include/json.hpp:496-513 | A `,` right after `[` (after optional whitespace) is read as a value, so `[,1]` fails with "Unexpected identifier". |
| JsonParserFacts.MembersLeadingComma | include/json.hpp:456-469 | A `,` right after `{` (after optional whitespace) is read as a key, so `{,"a":1}` fails with "Invalid string". |
| JsonParserFacts.DigitRunOf | include/json.hpp:539-545 | The digit run of digits followed by a non-digit is exactly those digits. |
| JsonParserFacts.IntegerLiteral | include/json.hpp:523-562 | An optional minus and digits with no `.` after them are read as that integer, leading zeros included. |
| JsonParserFacts.UnsignedLiteral | include/json.hpp:539-562 | Digits without a point are read as the integer they spell. |
| JsonParserFacts.NegativeLiteral | include/json.hpp:529-562 | A minus and digits are read as the negated integer. |
| JsonParserFacts.FractionLiteral | include/json.hpp:547-592 | Digits, a point and any number of digits, possibly none, are read as a fractional number with that lexeme. |
| JsonParserFacts.ExponentLiteral | include/json.hpp:565-592 | A fraction with `e` or `E`, an optional sign and digits is read with the exponent in its lexeme. |
| JsonParserFacts.FractionPart | include/json.hpp:547-565 | After the fractional digits, reading continues with the exponent rule. |
| JsonParserFacts.ExponentPart | include/json.hpp:565-592 | An exponent marker, optional sign and digits extend the lexeme. |
| JsonParserFacts.ExponentNeedsDigit | include/json.hpp:571-581 | An exponent without a digit fails with "Invalid exponent". |
| JsonParserFacts.MinusNeedsDigit | include/json.hpp:529-537 | A minus not followed by a digit fails with "Invalid number". |
| JsonParserFacts.NoExponentWithoutPoint | include/json.hpp:561-562 | `e` right after integer digits is not an exponent; the document fails with "Unexpected data". |
| JsonParserFacts.TrailingData | include/json.hpp:391-399 | After the value, whitespace alone gives the value. Anything else after it, with or without whitespace before it, gives "Unexpected data". |
| JsonParserFacts.DataAfterValue | include/json.hpp:391-397 | A value directly followed by a byte that is not whitespace gives "Unexpected data". |
| JsonParserFacts.NumberStopsBeforeE | include/json.hpp:539-562 | Integer digits followed by `e` are read as that integer; the `e` is left unread. |
| JsonParserFacts.PlainCopied | include/json.hpp:706-711 | Bytes other than quote, backslash and control bytes are copied into the string unchanged. |
| JsonParserFacts.OpenQuote | include/json.hpp:630-633 | After the opening quote, the body is read. |
| JsonParserFacts.StringLiteral | include/json.hpp:625-718 | A quoted run of plain bytes reads as exactly those bytes. |
| JsonParserFacts.UnicodeEscapeRejected | include/json.hpp:652-670 | Every `\u` escape fails with "Invalid character code". |
| JsonParserFacts.UnknownEscapeRejected | include/json.hpp:700-701 | A backslash before a byte outside `"\/bfnrtu` fails with "Unrecognized escape character". |
| JsonParserFacts.ControlByteRejected | include/json.hpp:706-707 | A raw control byte in a string fails with "Unterminated string literal". |
| JsonParserFacts.UnterminatedString | include/json.hpp:635-640 | Input that ends inside a string fails: with "Invalid string" when no quote closes it, and with "Unterminated string literal" after a trailing backslash. |
| JsonParserFacts.ValueOpensObject | include/json.hpp:449-453 | A `{` starts the member loop. |
| JsonParserFacts.ValueOpensArray | include/json.hpp:490-494 | A `[` starts the element loop. |
| JsonParserFacts.ObjectOpenClose | include/json.hpp:449-488 | `{` directly followed by `}` is the empty object, and reading resumes after the `}`. |
| JsonParserFacts.ArrayOpenClose | include/json.hpp:490-521 | `[` directly followed by `]` is the empty array, and reading resumes after the `]`. |
| JsonParserFacts.ValueReadsNumber | include/json.hpp:523-525 | A `-` or a digit starts a number. |
| JsonParserFacts.ValueReadsString | include/json.hpp:594-599 | A quote starts a string value. |
| JsonParserFacts.ValueReadsKeyword | include/json.hpp:600-622 | Any other byte starts a keyword. |
| JsonParserFacts.ElementsClose | include/json.hpp:498-521 | The last pass of the array loop: a `]` after optional whitespace closes the array with the elements read so far. |
| JsonParserFacts.ElementsFirstStep | include/json.hpp:498-513 | One pass of the array loop, for the first element: no comma is needed, and the value read is appended. |
| JsonParserFacts.ElementsNextStep | include/json.hpp:503-513 | One pass of the array loop, for a later element that starts right at its comma: the value after the comma is appended. |
| JsonParserFacts.ElementsCommaStep | include/json.hpp:498-513 | One pass of the array loop for a later element, with whitespace allowed before the comma. |
| JsonParserFacts.ElementsMissingComma | include/json.hpp:505-506 | After an element, a byte other than `,` or `]` fails with "Invalid object". |
| JsonParserFacts.ElementsUnclosed | include/json.hpp:516-517 | Input that ends inside an array fails with "Invalid array". |
| JsonParserFacts.ElementsCommaError | include/json.hpp:505-511 | The error of the value after a comma is the array's error. |
| JsonParserFacts.NoLeadingWhitespace | include/json.hpp:418-423 | Text that starts with a non-whitespace byte is not changed by skipping. |
| JsonParserFacts.MembersClose | include/json.hpp:457-488 | The last pass of the object loop: a `}` after optional whitespace closes the object with the members read so far. |
| JsonParserFacts.MembersFirstStep | include/json.hpp:457-480 | One pass of the object loop, for the first member: no comma is needed, and its key is stored with its value. |
| JsonParserFacts.MembersNextStep | include/json.hpp:462-480 | One pass of the object loop, for a later member that starts right at its comma: the member is stored, overwriting an equal key. |
| JsonParserFacts.MembersCommaStep | include/json.hpp:457-480 | One pass of the object loop for a later member, with whitespace allowed before the comma. |
| JsonParserFacts.MembersCommaTo | include/json.hpp:457-480 | One pass of the object loop for a later member, once the text after the comma and its whitespace is known: the member read from that text is stored. |
| JsonParserFacts.ElementsCommaTo | include/json.hpp:498-513 | One pass of the array loop for a later element, once the text after the comma and its whitespace is known: the value read from that text is appended. |
| JsonParserFacts.CommaLeads | include/json.hpp:413-423 | Skipping whitespace leaves text that starts with a comma unchanged. |
| JsonParserFacts.MembersMissingComma | include/json.hpp:464-465 | After a member, a byte other than `,` or `}` fails with "Invalid object". |
| JsonParserFacts.MembersUnclosed | include/json.hpp:483-484 | Input that ends inside an object fails with "Invalid object". |
| JsonParserFacts.MembersCommaError | include/json.hpp:464-470 | The error of the key after a comma is the object's error. |
| JsonParserFacts.MembersMissingColon | include/json.hpp:470-474 | A key not followed by `:` fails with "Invalid object", also at the end of input. |
| JsonChars.DigitsValueOfDigits | include/json.hpp:562 | Reading back the decimal digits of a natural number gives that number. |
| JsonChars.DigitsValueLeadingZero | include/json.hpp:539-562 | A leading zero does not change an integer's value. |
| JsonChars.Digits | include/json.hpp:782 | What `std::to_string` writes for a natural number: at least one decimal digit, with a leading `0` exactly when the number is zero. `DigitsValueOfDigits` reads the number back. |
| JsonEncoder.UnicodeEscape | include/json.hpp:763-770 | A control byte is written as `\u` and four lowercase hexadecimal digits. |
| JsonEncoder.EscapeChar | include/json.hpp:754-772 | A byte is copied as itself exactly when it is not `"`, `\`, `/` or a control byte; otherwise its text starts with a backslash and has at least two bytes. |
| JsonEncoder.EscapeString | include/json.hpp:752-773 | An escaped string is never shorter than the string. |
| JsonEncoder.PlainStringCopied | include/json.hpp:752-773 | A string with no byte that needs an escape is written unchanged. |
| JsonEncoder.EncodeNumber | include/json.hpp:779-784 | An integral number is written as a non-empty decimal integer. It starts with `-` exactly when the number is negative, and it has no leading zero unless it is `0`. Every number's text is made of number characters only. `IntegerRoundTrip` reads it back. |
| JsonEncoder.Encode | include/json.hpp:775-839 | Every value except a fraction with an empty lexeme is written as non-empty text. That text never starts with whitespace or with the first byte of the byte-order mark. `RoundTrip`, `EncodeStart` and `StripLayout` state what the parser reads back and how the two layouts relate. |
| JsonEncoder.MemberText | include/json.hpp:802-805 | A member is a quote, its escaped key, `":` and its value, so it is at least three bytes longer than its key. `CompactMembers` gives its exact shape. |
| JsonEncoder.EncodeMembers | include/json.hpp:798-808 | The members text is empty exactly when no key is left. In the laid-out form it starts with a tab and ends with a newline. `CompactMembers` and `MembersRoundTrip` relate it to the keys and the parser. |
| JsonEncoder.EncodeElements | include/json.hpp:820-827 | In the laid-out form, the elements text is empty exactly when no element is left; otherwise it starts with a tab and ends with a newline. `CompactElements` and `ElementsRoundTrip` relate it to the elements and the parser. |
| JsonEncoder.EncodeDocument | include/json.hpp:742-748 | A document starts with the three byte-order-mark bytes exactly when the mark was asked for. |
| JsonEncoder.JoinSeparatorCount | include/json.hpp:798-808 | Joining `n` parts adds exactly `n - 1` separators. |
| JsonEncoder.CompactElements | include/json.hpp:820-827 | Compact array elements are their encodings in stored order, separated by commas. |
| JsonEncoder.CompactMembers | include/json.hpp:798-808 | Compact members are `"key":value` texts in the given key order, separated by commas. |
| JsonEncoder.CompactArrayLayout | include/json.hpp:813-831 | A compact array is `[`, its elements joined by commas, `]`. |
| JsonEncoder.CompactObjectLayout | include/json.hpp:791-812 | A compact object is `{`, its members in ascending key order joined by commas, `}`. |
| JsonEncoder.ContainerCommaCount | include/json.hpp:791-831 | A non-empty container with `n` entries adds exactly `n - 1` commas to those inside its entries. |
| JsonEncoder.EscapeStringNoLayout | include/json.hpp:752-773 | An escaped string contains no raw newline or tab. |
| JsonEncoder.EscapeCharNoLayout | include/json.hpp:752-773 | The escape of any single byte holds no raw newline or tab. |
| JsonEncoder.StripLayout | include/json.hpp:791-831 | Deleting every newline and tab from the laid-out encoding gives the compact encoding. |
| JsonEncoder.StripMembers | include/json.hpp:798-808 | The same holds member by member. |
| JsonEncoder.StripElements | include/json.hpp:820-827 | The same holds element by element. |
| JsonEncoder.ByteOrderMarkPrefix | include/json.hpp:742-748 | Encoding with a byte-order mark is the mark followed by the encoding without one. Laid-out and compact documents differ only by newlines and tabs. |
| JsonRoundTrip.EscapeCharInverse | include/json.hpp:752-773 | Each round-trip byte is copied or written as a short escape that the parser decodes back to it. |
| JsonRoundTrip.StringBodyRoundTrip | include/json.hpp:752-773 | The parser reads an escaped string body back to the original bytes. |
| JsonRoundTrip.EscapedCharRead | include/json.hpp:625-718 | One escaped round-trip byte in front of a string body that reads as `s` makes the body read as that byte followed by `s`. |
| JsonRoundTrip.StringRoundTrip | include/json.hpp:625-718 | A quoted escaped string reads back to the original string. |
| JsonRoundTrip.IntegerRoundTrip | include/json.hpp:780-784 | An integer written in decimal reads back as the same integer. |
| JsonRoundTrip.EncodeStart | include/json.hpp:776-836 | Every encoding starts with a byte that starts a value. |
| JsonRoundTrip.ScalarRoundTrip | include/json.hpp:776-790 | Null, booleans, integers and round-trip strings read back as themselves. |
| JsonRoundTrip.ValueRoundTrip | include/json.hpp:776-836 | Every encodable value, compact or laid out at any depth, reads back as itself. |
| JsonRoundTrip.EntryRoundTrip | include/json.hpp:820-827 | An indented element reads back as itself. |
| JsonRoundTrip.MemberRoundTrip | include/json.hpp:798-808 | An indented member reads back as its key and value. |
| JsonRoundTrip.KeyAfterLayout | include/json.hpp:798-808 | An encoded key after its indentation reads back as the key, leaving the text after its closing quote. |
| JsonRoundTrip.ColonThenValue | include/json.hpp:470-476 | A colon directly followed by a value: neither whitespace skip around the colon drops anything. |
| JsonRoundTrip.ElementsRoundTrip | include/json.hpp:820-827 | The element texts read back as the whole array. |
| JsonRoundTrip.MembersRoundTrip | include/json.hpp:798-808 | The member texts in key order read back as the whole object. |
| JsonRoundTrip.ArrayRoundTrip | include/json.hpp:813-830 | An encodable array, with its brackets and layout, reads back as itself. |
| JsonRoundTrip.ObjectRoundTrip | include/json.hpp:791-812 | An encodable object, with its braces and layout, reads back as itself. |
| JsonRoundTrip.RoundTrip | include/json.hpp:737-843 | `parse(encode(v, w, bom)) == v` for every tree whose numbers are integers and whose strings and keys contain no control byte other than `\b\f\n\r\t`. |
| JsonRoundTrip.ReparseIsStable | include/json.hpp:391-400 | Parsing, encoding and parsing again gives the first result whenever the first result holds only integers. |
| JsonRoundTrip.ControlEscape | include/json.hpp:763-770 | A control byte without a short form is written as `\u00` and two lowercase hexadecimal digits. |
| JsonRoundTrip.ControlByteBreaksRoundTrip | include/json.hpp:652-670 | The encoding of such a byte is refused by the parser, so the round trip needs its restriction on strings. |
| JsonRoundTrip.QuotedUnicodeEscape | include/json.hpp:652-670 | A document that is a string holding a `\u` escape fails with "Invalid character code". |
| JsonDocuments.EncodedValue | include/json.hpp:442-623 | An encoded value followed by a delimiter is read as that value and starts with no whitespace. |
| JsonDocuments.EncodedMember | include/json.hpp:470-480 | An encoded key, a colon and an encoded value are read as that member. |
| JsonDocuments.DocumentEnd | include/json.hpp:394-399 | After a value, whitespace alone gives the value; anything else fails with "Unexpected data". |
| JsonDocuments.FirstElement | include/json.hpp:490-513 | `[` and a value start an array holding that value. |
| JsonDocuments.FirstMember | include/json.hpp:449-480 | `{`, a key, `:` and a value start an object holding that member. |
| JsonDocuments.ArrayOpenedOnly | include/json.hpp:516-517 | `[` followed only by whitespace fails with "Invalid array". |
| JsonDocuments.UnclosedArray | include/json.hpp:516-517 | `[`, a value and whitespace fail with "Invalid array". |
| JsonDocuments.TrailingCommaInArray | include/json.hpp:505-511 | A comma right before `]` fails with "Unexpected identifier". |
| JsonDocuments.CommaThenBracket | include/json.hpp:505-511 | A comma then `]` inside an array fails with "Unexpected identifier". |
| JsonDocuments.MissingCommaInArray | include/json.hpp:505-506 | Two elements without a comma fail with "Invalid object". |
| JsonDocuments.ObjectOpenedOnly | include/json.hpp:483-484 | `{` followed only by whitespace fails with "Invalid object". |
| JsonDocuments.KeyWithoutValue | include/json.hpp:470-474 | A key without a colon after it fails with "Invalid object". |
| JsonDocuments.UnclosedObject | include/json.hpp:483-484 | `{`, a member and whitespace fail with "Invalid object". |
| JsonDocuments.TrailingCommaInObject | include/json.hpp:464-470 | A comma right before `}` fails with "Invalid string". |
| JsonDocuments.CommaThenBrace | include/json.hpp:464-470 | A comma then `}` inside an object fails with "Invalid string". |
| JsonDocuments.MissingCommaInObject | include/json.hpp:464-465 | Two members without a comma fail with "Invalid object". |
| JsonDocuments.DuplicateKey | include/json.hpp:480 | An object with one key written twice holds the second value. |
| JsonDocuments.LastMember | include/json.hpp:462-488 | A comma, a member and `}` close the object with that member added. |
| JsonDocuments.ArrayFirstValue | include/json.hpp:490-513 | `[` followed by a value starts an array holding that value, and the loop goes on after it. |
| JsonDocuments.SkipLayout | include/json.hpp:413-423 | Whitespace in front of text that starts with a non-whitespace byte is skipped exactly. |
| JsonDocuments.MemberRead | include/json.hpp:470-478 | A plain key, whitespace, `:`, whitespace and a value are read as that member: whitespace is allowed on both sides of the colon. |
| JsonDocuments.CommaLayout | include/json.hpp:462-467 | Whitespace, a comma and whitespace are passed over in that order, reaching the text after them. |
| JsonDocuments.ElementAfterComma | include/json.hpp:498-513 | A comma with whitespace on both sides, then a value, appends that value to the array. |
| JsonDocuments.StringFirstMember | include/json.hpp:449-480 | `{` and a first member whose value is a plain string, with whitespace around the colon, start an object holding that member. |
| JsonDocuments.MemberTextAfterComma | include/json.hpp:457-480 | A comma, whitespace and a member with whitespace around its colon store that member, overwriting an equal key. |
| JsonDocuments.DigitFirstElement | include/json.hpp:490-513 | `[` and a one-digit integer start an array holding that integer. |
| JsonDocuments.DigitAfterComma | include/json.hpp:498-513 | A comma with whitespace around it and a one-digit integer append that integer. |
| JsonDocuments.IntegerText | include/json.hpp:523-562 | One digit followed by a byte that is neither a digit nor a point is that integer. |
| JsonDocuments.EmptyObjectAfterComma | include/json.hpp:498-513 | A comma with whitespace around it and `{}` append the empty object. |
| JsonDocuments.EmptyStringAfterComma | include/json.hpp:498-513 | A comma with whitespace around it and `""` append the empty string. |
| JsonExamples.WholeDocument | include/json.hpp:391-400 | A value followed only by whitespace is the document's value. |
| JsonExamples.RejectedDocument | include/json.hpp:391-394 | A document whose value fails fails with the same error. |
| JsonExamples.PlainStringValue | include/json.hpp:594-599 | A quoted run of plain bytes is a string value. |
| JsonExamples.IntegerValue | include/json.hpp:523-562 | Digits followed by a delimiter are an integer value. |
| JsonExamples.EmptyObjectValue | include/json.hpp:449-488 | `{}` is the empty object. |
| JsonExamples.EmptyArrayValue | include/json.hpp:490-521 | `[]` is the empty array. |
| JsonExamples.NullDocument | test/tests.cpp:8 | `null` parses to null. |
| JsonExamples.IntegerDocument | test/tests.cpp:14 | `10` parses to the number 10. |
| JsonExamples.FractionText | include/json.hpp:547-592 | Digits, a point and digits form a document that is one fractional number. |
| JsonExamples.ExponentText | include/json.hpp:565-592 | The same with an exponent. |
| JsonExamples.FractionDocument | test/tests.cpp:21 | `0.5` parses to the fractional number with lexeme `0.5`. |
| JsonExamples.ExponentDocument | test/tests.cpp:24 | `0.1e1` parses to the fractional number with lexeme `0.1e1`. |
| JsonExamples.FalseDocument | test/tests.cpp:30 | `false` parses to false. |
| JsonExamples.EmptyStringDocument | test/tests.cpp:37 | `""` parses to the empty string. |
| JsonExamples.QuotedText | include/json.hpp:625-718 | A quoted run of plain bytes is a document holding that string. |
| JsonExamples.EmptyObjectDocument | test/tests.cpp:43 | `{}` parses to the empty object. The byte-vector test at test/tests.cpp:115-125 parses the same two bytes. |
| JsonExamples.EmptyArrayDocument | test/tests.cpp:63 | `[]` parses to the empty array. |
| JsonExamples.Utf8Document | test/tests.cpp:83 | The UTF-8 bytes of "ē–" are copied into the string unchanged. |
| JsonExamples.EscapeDocument | test/tests.cpp:90 | `"\b\f\n\r\t"` parses to the five control bytes. |
| JsonExamples.EscapeControls | include/json.hpp:757-762 | The five control bytes with short forms are written as those short forms. |
| JsonExamples.BraceErrorDocument | test/tests.cpp:127-130 | `{` is refused with a `ParseError`. |
| JsonExamples.ObjectErrorDocument | test/tests.cpp:132-135 | `{""}` is refused with a `ParseError`. |
| JsonExamples.ThreeElements | include/json.hpp:813-831 | Three elements are written indented, with commas between them only. |
| JsonExamples.LaidOutArrayText | include/json.hpp:813-831 | `[1,2,3]` laid out at depth one is `[\n\t\t1,\n\t\t2,\n\t\t3\n\t]`. |
| JsonExamples.TwoMembers | include/json.hpp:791-812 | Two members are written in ascending key order whatever order the map was built in. |
| JsonExamples.CompactObjectText | include/json.hpp:791-812 | An object built as `n`, `b` is written as `{"b":true,"n":null}`. |
| JsonExamples.PairArrayValue | test/tests.cpp:50 | `[1, 2 ]` followed by any text is the array of 1 and 2, and reading stops before that text. |
| JsonExamples.PairTail | include/json.hpp:498-521 | After `[1`, the text `, 2 ]` appends 2 and closes the array. |
| JsonExamples.InnerObjectValue | test/tests.cpp:50 | `{"x"\r: "y"}` followed by any text is the object mapping `x` to `"y"`: a carriage return is allowed before the colon. |
| JsonExamples.SecondMember | include/json.hpp:457-488 | In the object test document, `, "c": [1, 2 ]` stores `c`, and the rest stores `d` and closes the object. |
| JsonExamples.LastMember | include/json.hpp:457-488 | `, "d": {"x"\r: "y"} }` stores `d` and closes the object. |
| JsonExamples.ObjectDocumentValue | test/tests.cpp:50 | The object test document followed by any text is read as its object, stopping before that text. |
| JsonExamples.ObjectDocument | test/tests.cpp:47-58 | `{"a" : "b", "c": [1, 2 ], "d": {"x"\r: "y"} }` parses to the object whose members are exactly `a` = `"b"`, `c` = `[1, 2]` and `d` = `{"x": "y"}`. |
| JsonExamples.ArrayObject | include/json.hpp:498-513 | In the array test document, `\t , {}` appends the empty object, and the rest appends `""` and closes the array. |
| JsonExamples.ArrayString | include/json.hpp:498-521 | `\n, ""]` appends the empty string and closes the array. |
| JsonExamples.ArrayDocumentValue | test/tests.cpp:70 | The array test document followed by any text is read as its array, stopping before that text. |
| JsonExamples.ArrayDocument | test/tests.cpp:68-78 | `[1, 2\t , {}\n, ""]` parses to exactly the four elements 1, 2, `{}` and `""`. |
| JsonFindings.SignedChar | include/json.hpp:763 | A byte read as a signed `char` is the byte, or the byte minus 256. |
| JsonFindings.SignedAgreesOnAscii | include/json.hpp:752-773 | On ASCII bytes, signed and unsigned `char` escape alike. |
| JsonFindings.SignedEscapesHighByte | include/json.hpp:763-770 | With signed `char`, every byte from 0x80 up is written as `\uff` and its own two hexadecimal digits. |
| JsonFindings.UnsignedCopiesHighByte | include/json.hpp:771-772 | With unsigned bytes, the same bytes are copied unchanged. |
| JsonFindings.HighByteText | include/json.hpp:763-770 | With signed `char`, the byte 0xC4 is written as `\uffc4`. |
| JsonFindings.SignedRoundTripFails | include/json.hpp:652-670 | With signed `char`, the encoded one-byte string 0xC4 is refused by the parser. |
| JsonFindings.UnsignedHighByteText | include/json.hpp:771-772 | With unsigned bytes, that string is encoded as itself. |
| JsonFindings.UnsignedRoundTripHolds | include/json.hpp:771-772 | With unsigned bytes, that string is parsed back from its encoding. |

## Left out

- Conversion between text and `double`. This covers `std::stoll`, `std::stod`, `std::floor` and `std::to_string`. An integer literal is an unbounded `int`, and a fractional one is kept as its lexeme. The overflow of `std::stoll`, which throws `std::out_of_range` rather than `ParseError`, is not modelled.
- JsonParser.ParseNumber: `std::stod` at include/json.hpp:592 also throws `std::out_of_range` when a fraction overflows or underflows a `double`, as `1.0e999` and `1.0e-400` do. The model reads these as `Ok(Num(Frac(..)))` with the lexeme kept.
- JsonEncoder.EncodeNumber: writes a fraction's lexeme as it was read. The library converts it first. A fraction with an integral value, such as `0.1e1` or `2.0`, goes through `std::to_string(static_cast<std::int64_t>(d))` at include/json.hpp:782 and comes out as `1` or `2`. Any other fraction goes through `std::to_string(d)` and gets six decimals, so `0.5` comes out as `0.500000`. Only `Int` numbers are encoded as the library encodes them, and only those are covered by the round-trip lemmas.
- The `static_cast` of `as<T>()` to the requested arithmetic type, and the `double` conversion in the arithmetic constructor.
- JsonRoundTrip.RoundTrip: holds for every unbounded integer. In the library a number is a `double`, so the round trip holds only for integral doubles within the `int64` range. `std::stoll` at include/json.hpp:562 reads a long integer, and `Value{...}` turns it into a `double` through the `static_cast<double>` at include/json.hpp:48, which loses precision above 2^53. On the way out, `static_cast<std::int64_t>(d)` at include/json.hpp:782 is undefined when the magnitude of `d` is 2^63 or more.
- JsonValue.Construct: reads `Value(const char*)` at include/json.hpp:52 as a string. That constructor brace-initialises a variant that has both `bool` and `std::string` alternatives. Standard libraries that predate the change to `std::variant`'s converting constructor (proposal P0608) pick `bool` for a `const char*`, because that is a standard conversion. The model follows the string reading, which is what test/tests.cpp:149-150 expect.
- JsonValue.AsNumberMut: gives `0` as an integer where the library stores `0.0`. The two are equal as `double`s.
- JsonParser.ParseString: decoding of the four hexadecimal digits after `\u` and their UTF-8 re-encoding are left out. No input reaches them, because the `u` itself fails the hexadecimal test. This includes the 4-byte branch, which would need values above 0xFFFF.
- The "Unknown value type" branch of the encoder, which no `Value` reaches.
- Reading past the end at include/json.hpp:473, when input stops right after a key. That is undefined behaviour, and the model reports "Invalid object" there.
- The `const char*` and iterator-type overloads of `parse`. The input is one byte sequence.
- The signedness of `char`. The main model reads every byte as unsigned; the signed case is under Findings.
- `is<T>()` has no contract of its own. It is `KindOf(v) == k` and appears in the contracts of every accessor.
- The expected texts of test/tests.cpp:109 and 111. They write `2.0F` as `2.000000`, but the encoder writes an integral double as an integer (`2`). They also rely on the header's constructors from C++ literals.
- The test runner in test/main.cpp: timing, console output and argument filtering.

## Findings

| source | as written | input that shows it | evidently intended | confidence | as-written member | corrected member |
|---|---|---|---|---|---|---|
| include/json.hpp:763-770 | `c <= 0x1F` compares a plain `char`, and the hexadecimal digits come from `c >> (12 - p * 4)`. Where `char` is signed, as on x86, each byte from 0x80 to 0xFF is negative. It is escaped as `\uffXX`, and the parser refuses every `\u` escape. | The one-byte string 0xC4, the first byte of "ē", is encoded as `"\uffc4"`, and `parse` of that fails with "Invalid character code". | Bytes from 0x80 up are copied unchanged, so UTF-8 text round-trips, as the parser already copies such bytes on the way in. | medium, not executed; it holds where `char` is signed | JsonFindings.SignedRoundTripFails | JsonRoundTrip.RoundTrip |
