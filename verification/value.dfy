/** The `json::Value` tagged union and its accessors.

    The library has two kinds of accessor with one name: the `const` overloads
    throw `TypeError` or `RangeError` on a mismatch, the non-`const` ones
    auto-vivify (replace a value of the wrong type with an empty one of the
    requested type). Here they are separate functions: `AsBool` and
    `AsBoolMut`, `GetMember` and `MemberMut`, and so on. A mutation returns the
    updated value; a mutable accessor returns the updated value together with
    the referenced part. */
module JsonValue {
  import opened JsonErrors
  import opened JsonChars

  /** Characters a number lexeme is made of. */
  predicate IsNumberChar(c: char) {
    IsDigit(c) || c == '-' || c == '+' || c == '.' || c == 'e' || c == 'E'
  }

  /** The text of a fractional number. The type admits any string of number
      characters, the empty one included; only lexemes the parser makes
      (digits, a point, digits, an optional exponent) stand for a `double`.
      The encoder copies a lexeme as it is, so any other lexeme gives text
      the library never writes. */
  type Lexeme = s: seq<char> | forall i :: 0 <= i < |s| ==> IsNumberChar(s[i])
    witness []

  /** Every number is a `double` in the library. An integer literal is kept as
      its exact value; a fractional literal is kept as its lexeme, standing
      for the `double` that `std::stod` would make of it. */
  datatype Number = Int(i: int) | Frac(lexeme: Lexeme)

  /** Strings and object keys are byte strings; each `char` stands for one
      unsigned byte. Objects are `std::map`s: keys are unique. */
  datatype Value =
    | Null
    | Bool(b: bool)
    | Num(n: Number)
    | Str(s: string)
    | Obj(o: map<string, Value>)
    | Arr(a: seq<Value>)

  /** A default-constructed value holds the first alternative of the variant,
      `std::nullptr_t`. New array slots are default-constructed too. */
  const DefaultValue: Value := Null

  /** The type tag that `is<T>()` tests. `is<std::string>` and
      `is<const char*>` both test `StringKind`; every arithmetic `T` tests
      `NumberKind`. */
  datatype Kind = NullKind | BoolKind | NumberKind | StringKind | ObjectKind | ArrayKind

  function KindOf(v: Value): Kind {
    match v
    case Null => NullKind
    case Bool(_) => BoolKind
    case Num(_) => NumberKind
    case Str(_) => StringKind
    case Obj(_) => ObjectKind
    case Arr(_) => ArrayKind
  }

  /** `is<T>()`: no side effect, never fails. */
  predicate Is(v: Value, k: Kind) {
    KindOf(v) == k
  }

  /** Every string and key in the tree is made of round-trip bytes. The parser
      only ever builds such trees. */
  predicate SafeStrings(v: Value) {
    match v
    case Str(s) => IsRoundTripString(s)
    case Arr(a) => forall i :: 0 <= i < |a| ==> SafeStrings(a[i])
    case Obj(o) => forall k :: k in o ==> IsRoundTripString(k) && SafeStrings(o[k])
    case _ => true
  }

  /** Every number in the tree is an integer. */
  predicate IntegersOnly(v: Value) {
    match v
    case Num(n) => n.Int?
    case Arr(a) => forall i :: 0 <= i < |a| ==> IntegersOnly(a[i])
    case Obj(o) => forall k :: k in o ==> IntegersOnly(o[k])
    case _ => true
  }

  // ---------------------------------------------------------------------------
  // Construction and assignment

  /** The argument of a converting constructor or of an assignment operator. */
  datatype Literal =
    | NullLit
    | BoolLit(b: bool)
    | NumLit(n: Number)
    | StrLit(s: string)
    | ObjLit(o: map<string, Value>)
    | ArrLit(a: seq<Value>)

  function LiteralKind(l: Literal): Kind {
    match l
    case NullLit => NullKind
    case BoolLit(_) => BoolKind
    case NumLit(_) => NumberKind
    case StrLit(_) => StringKind
    case ObjLit(_) => ObjectKind
    case ArrLit(_) => ArrayKind
  }

  /** `Value(x)`: the new value has the literal's type and holds its payload. */
  function Construct(l: Literal): (r: Value)
    ensures Is(r, LiteralKind(l))
    ensures l.BoolLit? ==> r.b == l.b
    ensures l.NumLit? ==> r.n == l.n
    ensures l.StrLit? ==> r.s == l.s
    ensures l.ObjLit? ==> r.o == l.o
    ensures l.ArrLit? ==> r.a == l.a
  {
    match l
    case NullLit => Null
    case BoolLit(b) => Bool(b)
    case NumLit(n) => Num(n)
    case StrLit(s) => Str(s)
    case ObjLit(o) => Obj(o)
    case ArrLit(a) => Arr(a)
  }

  /** `v = x`: every assignment operator replaces the value by the one the
      constructor would build, except `operator=(std::nullptr_t)`, which
      returns without touching the value. */
  function Assign(v: Value, l: Literal): (r: Value)
    ensures l.NullLit? ==> r == v
    ensures !l.NullLit? ==> Is(r, LiteralKind(l))
    ensures l.BoolLit? ==> AsBool(r) == Ok(l.b)
    ensures l.NumLit? ==> AsNumber(r) == Ok(l.n)
    ensures l.StrLit? ==> AsString(r) == Ok(l.s)
    ensures l.ObjLit? ==> AsObject(r) == Ok(l.o)
    ensures l.ArrLit? ==> AsArray(r) == Ok(l.a)
  {
    if l.NullLit? then v else Construct(l)
  }

  /** Assigning `nullptr` differs from constructing from `nullptr`: a value
      that is not null stays not null. */
  lemma AssignNullKeepsValue(v: Value)
    requires !Is(v, NullKind)
    ensures Assign(v, NullLit) != Construct(NullLit)
    ensures !Is(Assign(v, NullLit), NullKind)
  {
  }

  // ---------------------------------------------------------------------------
  // Read-only (const) accessors: they fail instead of changing the value

  function AsBool(v: Value): (r: Result<bool>)
    ensures r.Ok? <==> Is(v, BoolKind)
    ensures r.Ok? ==> v == Bool(r.value)
    ensures r.Err? ==> r.error == WrongType
  {
    if v.Bool? then Ok(v.b) else Err(WrongType)
  }

  /** `as<T>()` for an arithmetic `T`; the `static_cast` to `T` is left out. */
  function AsNumber(v: Value): (r: Result<Number>)
    ensures r.Ok? <==> Is(v, NumberKind)
    ensures r.Ok? ==> v == Num(r.value)
    ensures r.Err? ==> r.error == WrongType
  {
    if v.Num? then Ok(v.n) else Err(WrongType)
  }

  /** `as<std::string>()` and `as<const char*>()`. */
  function AsString(v: Value): (r: Result<string>)
    ensures r.Ok? <==> Is(v, StringKind)
    ensures r.Ok? ==> v == Str(r.value)
    ensures r.Err? ==> r.error == WrongType
  {
    if v.Str? then Ok(v.s) else Err(WrongType)
  }

  function AsObject(v: Value): (r: Result<map<string, Value>>)
    ensures r.Ok? <==> Is(v, ObjectKind)
    ensures r.Ok? ==> v == Obj(r.value)
    ensures r.Err? ==> r.error == WrongType
  {
    if v.Obj? then Ok(v.o) else Err(WrongType)
  }

  function AsArray(v: Value): (r: Result<seq<Value>>)
    ensures r.Ok? <==> Is(v, ArrayKind)
    ensures r.Ok? ==> v == Arr(r.value)
    ensures r.Err? ==> r.error == WrongType
  {
    if v.Arr? then Ok(v.a) else Err(WrongType)
  }

  /** `begin()`/`end()`, const or not: the range they delimit is the array's
      elements in stored order; on any other type both throw, and unlike the
      other non-const members they do not auto-vivify. */
  function Elements(v: Value): (r: Result<seq<Value>>)
    ensures r.Ok? <==> Is(v, ArrayKind)
    ensures r.Ok? ==> r.value == AsArray(v).value
    ensures r.Err? ==> r.error == WrongType
  {
    match v
    case Arr(a) => Ok(a)
    case _ => Err(WrongType)
  }

  function HasMember(v: Value, key: string): (r: Result<bool>)
    ensures r.Ok? <==> Is(v, ObjectKind)
    ensures r.Ok? ==> (r.value <==> key in AsObject(v).value)
    ensures r.Err? ==> r.error == WrongType
  {
    match v
    case Obj(o) => Ok(key in o)
    case _ => Err(WrongType)
  }

  /** `operator[](key) const`. */
  function GetMember(v: Value, key: string): (r: Result<Value>)
    ensures r.Ok? <==> HasMember(v, key) == Ok(true)
    ensures r.Ok? ==> r.value == AsObject(v).value[key]
    ensures HasMember(v, key) == Ok(false) ==> r == Err(RangeError("Member does not exist"))
    ensures !Is(v, ObjectKind) ==> r == Err(WrongType)
  {
    match v
    case Obj(o) => if key in o then Ok(o[key]) else Err(RangeError("Member does not exist"))
    case _ => Err(WrongType)
  }

  function GetSize(v: Value): (r: Result<nat>)
    ensures r.Ok? <==> Is(v, ArrayKind)
    ensures r.Ok? ==> r.value == |AsArray(v).value|
    ensures r.Err? ==> r.error == WrongType
  {
    match v
    case Arr(a) => Ok(|a|)
    case _ => Err(WrongType)
  }

  /** `operator[](index) const`. */
  function GetIndex(v: Value, index: nat): (r: Result<Value>)
    ensures r.Ok? <==> GetSize(v).Ok? && index < GetSize(v).value
    ensures r.Ok? ==> r.value == AsArray(v).value[index]
    ensures GetSize(v).Ok? && index >= GetSize(v).value ==> r == Err(RangeError("Index out of range"))
    ensures !Is(v, ArrayKind) ==> r == Err(WrongType)
  {
    match v
    case Arr(a) => if index < |a| then Ok(a[index]) else Err(RangeError("Index out of range"))
    case _ => Err(WrongType)
  }

  /** `std::vector::resize`: truncate, or pad with default values. */
  function ResizeSeq(a: seq<Value>, size: nat): (r: seq<Value>)
    ensures |r| == size
    ensures forall i :: 0 <= i < size && i < |a| ==> r[i] == a[i]
    ensures forall i :: |a| <= i < size ==> r[i] == DefaultValue
  {
    if size <= |a| then a[..size] else a + seq(size - |a|, _ => DefaultValue)
  }

  function Resize(v: Value, size: nat): (r: Result<Value>)
    ensures r.Ok? <==> Is(v, ArrayKind)
    ensures r.Ok? ==> GetSize(r.value) == Ok(size)
    ensures r.Ok? ==> forall i :: 0 <= i < size ==>
      r.value.a[i] == (if i < |v.a| then v.a[i] else DefaultValue)
    ensures r.Err? ==> r.error == WrongType
  {
    match v
    case Arr(a) => Ok(Arr(ResizeSeq(a, size)))
    case _ => Err(WrongType)
  }

  function PushBack(v: Value, x: Value): (r: Result<Value>)
    ensures r.Ok? <==> Is(v, ArrayKind)
    ensures r.Ok? ==> GetSize(r.value) == Ok(|v.a| + 1)
    ensures r.Ok? ==> r.value.a[..|v.a|] == v.a && r.value.a[|v.a|] == x
    ensures r.Err? ==> r.error == WrongType
  {
    match v
    case Arr(a) => Ok(Arr(a + [x]))
    case _ => Err(WrongType)
  }

  // ---------------------------------------------------------------------------
  // Mutable (non-const) accessors: a mismatch resets the value instead of
  // failing. Each returns the updated value and what the reference denotes.

  function AsBoolMut(v: Value): (r: (Value, bool))
    ensures AsBool(r.0) == Ok(r.1)
    ensures AsBool(v).Ok? ==> r.0 == v
    ensures AsBool(v).Err? ==> r.1 == false
  {
    if v.Bool? then (v, v.b) else (Bool(false), false)
  }

  /** A mismatch resets the value to `0.0`. */
  function AsNumberMut(v: Value): (r: (Value, Number))
    ensures AsNumber(r.0) == Ok(r.1)
    ensures AsNumber(v).Ok? ==> r.0 == v
    ensures AsNumber(v).Err? ==> r.1 == Int(0)
  {
    if v.Num? then (v, v.n) else (Num(Int(0)), Int(0))
  }

  function AsStringMut(v: Value): (r: (Value, string))
    ensures AsString(r.0) == Ok(r.1)
    ensures AsString(v).Ok? ==> r.0 == v
    ensures AsString(v).Err? ==> r.1 == []
  {
    if v.Str? then (v, v.s) else (Str([]), [])
  }

  function AsObjectMut(v: Value): (r: (Value, map<string, Value>))
    ensures AsObject(r.0) == Ok(r.1)
    ensures AsObject(v).Ok? ==> r.0 == v
    ensures AsObject(v).Err? ==> r.1 == map[]
  {
    if v.Obj? then (v, v.o) else (Obj(map[]), map[])
  }

  function AsArrayMut(v: Value): (r: (Value, seq<Value>))
    ensures AsArray(r.0) == Ok(r.1)
    ensures AsArray(v).Ok? ==> r.0 == v
    ensures AsArray(v).Err? ==> r.1 == []
  {
    if v.Arr? then (v, v.a) else (Arr([]), [])
  }

  /** `operator[](key)`: a non-object becomes an empty object, then a missing
      key is inserted with a default value. */
  function MemberMut(v: Value, key: string): (r: (Value, Value))
    ensures GetMember(r.0, key) == Ok(r.1)
    ensures AsObject(v).Ok? ==>
      && r.0.o.Keys == v.o.Keys + {key}
      && forall k :: k in v.o ==> r.0.o[k] == v.o[k]
    ensures AsObject(v).Err? ==> r.0.o.Keys == {key}
    ensures HasMember(v, key) != Ok(true) ==> r.1 == DefaultValue
  {
    var o := AsObjectMut(v).1;
    var o' := if key in o then o else o[key := DefaultValue];
    (Obj(o'), o'[key])
  }

  /** `v[key] = x`: the mutable keyed access followed by an assignment. */
  function SetMember(v: Value, key: string, x: Value): (r: Value)
    ensures GetMember(r, key) == Ok(x)
    ensures AsObject(v).Ok? ==>
      && r.o.Keys == v.o.Keys + {key}
      && forall k :: k in v.o && k != key ==> r.o[k] == v.o[k]
    ensures AsObject(v).Err? ==> r.o.Keys == {key}
  {
    var o := MemberMut(v, key).0.o;
    Obj(o[key := x])
  }

  /** `operator[](index)`: an array shorter than `index + 1` grows to that
      length; a non-array is replaced by an array of `index + 1` defaults. */
  function IndexMut(v: Value, index: nat): (r: (Value, Value))
    ensures GetIndex(r.0, index) == Ok(r.1)
    ensures AsArray(v).Ok? ==>
      && |r.0.a| == (if index < |v.a| then |v.a| else index + 1)
      && r.0.a[..|v.a|] == v.a
      && forall j :: |v.a| <= j < |r.0.a| ==> r.0.a[j] == DefaultValue
    ensures AsArray(v).Err? ==>
      && |r.0.a| == index + 1
      && forall j :: 0 <= j < |r.0.a| ==> r.0.a[j] == DefaultValue
  {
    match v
    case Arr(a) =>
      var a' := if index >= |a| then ResizeSeq(a, index + 1) else a;
      (Arr(a'), a'[index])
    case _ =>
      var a' := ResizeSeq([], index + 1);
      (Arr(a'), a'[index])
  }

  /** `v[index] = x`. */
  function SetIndex(v: Value, index: nat, x: Value): (r: Value)
    ensures GetIndex(r, index) == Ok(x)
    ensures AsArray(v).Ok? ==>
      && |r.a| == (if index < |v.a| then |v.a| else index + 1)
      && forall j :: 0 <= j < |v.a| && j != index ==> r.a[j] == v.a[j]
    ensures forall j :: 0 <= j < |r.a| && j != index && (AsArray(v).Err? || j >= |v.a|) ==>
      r.a[j] == DefaultValue
  {
    var a := IndexMut(v, index).0.a;
    Arr(a[index := x])
  }

  /** Strict on read, lenient on write: wherever the read-only accessor
      succeeds the mutable one agrees with it and changes nothing, and after
      the mutable one the read-only one always succeeds. */
  lemma ReadAfterMutableAccess(v: Value, key: string, index: nat)
    ensures GetMember(v, key).Ok? ==> MemberMut(v, key) == (v, GetMember(v, key).value)
    ensures GetMember(MemberMut(v, key).0, key).Ok?
    ensures GetIndex(v, index).Ok? ==> IndexMut(v, index) == (v, GetIndex(v, index).value)
    ensures GetIndex(IndexMut(v, index).0, index).Ok?
  {
    if GetMember(v, key).Ok? {
      assert v.o[key := v.o[key]] == v.o;
    }
  }
}
