/** The descriptor after `JSON.parse`, and the parts of JavaScript's
    semantics that `websiteJson[field]?.length > 0` (index.js line 87)
    exercises: property reads, optional chaining, and the relational
    comparison of an arbitrary value with 0. */
module JsValue {
  import opened Wrappers

  /** A JavaScript number, as far as comparing it with 0 is concerned. */
  datatype Number = Finite(r: real) | Infinity(positive: bool) | NaN {
    /** The result of `this > 0`. */
    predicate Positive() {
      match this
      case Finite(r) => r > 0.0
      case Infinity(p) => p
      case NaN => false
    }
  }

  /** A value `JSON.parse` can return. Object members are kept in source
      order, duplicates included. */
  datatype Value =
    | Null
    | Bool(b: bool)
    | Num(n: Number)
    | Str(s: string)
    | Arr(items: seq<Value>)
    | Obj(members: seq<(string, Value)>)

  /** The only exception this part of the program can raise. */
  datatype Thrown = TypeError

  /** JavaScript's StringToNumber and Number::toString, which are not modelled. */
  datatype Conversions = Conversions(toNumber: string -> Number, numberToString: Number -> string)

  /** The member an object from `JSON.parse` holds under `k`: the last
      occurrence of `k` in the text wins. */
  function Member(ms: seq<(string, Value)>, k: string): (r: Option<Value>)
    ensures r.None? <==> forall i :: 0 <= i < |ms| ==> ms[i].0 != k
    ensures r.Some? ==>
      exists i :: 0 <= i < |ms| && ms[i] == (k, r.value) && forall j :: i < j < |ms| ==> ms[j].0 != k
  {
    if ms == [] then None
    else if ms[|ms| - 1].0 == k then Some(ms[|ms| - 1].1)
    else Member(ms[..|ms| - 1], k)
  }

  predicate HasMember(ms: seq<(string, Value)>, k: string) {
    Member(ms, k).Some?
  }

  /** Number of UTF-16 code units of `s`, JavaScript's string length. */
  function Utf16Length(s: string): (n: nat)
    ensures |s| <= n <= 2 * |s|
  {
    if s == [] then 0 else (if s[0] as int > 0xFFFF then 2 else 1) + Utf16Length(s[1..])
  }

  /** `doc[field]` for a required descriptor field name, `None` standing for
      `undefined`. Reading a property of `null` throws; strings, arrays,
      numbers and booleans have no property of any of those names. Only own
      members are looked up: this is JavaScript's property read for every name
      not an array index and not inherited from the Object, String, Array,
      Number or Boolean prototypes (such as `constructor`, `toString` or
      `toFixed`); every name of the program's table is such a name. */
  function FieldOf(doc: Value, field: string): (r: Result<Option<Value>, Thrown>)
    ensures r.Failure? <==> doc.Null?
    ensures doc.Obj? ==> r == Success(Member(doc.members, field))
  {
    match doc
    case Null => Failure(TypeError)
    case Obj(ms) => Success(Member(ms, field))
    case _ => Success(None)
  }

  /** `v.length` for a value that is neither `null` nor `undefined`. */
  function LengthOf(v: Value): (r: Option<Value>)
    requires !v.Null?
    ensures v.Str? ==> r == Some(Num(Finite(Utf16Length(v.s) as real)))
    ensures v.Arr? ==> r == Some(Num(Finite(|v.items| as real)))
    ensures v.Num? || v.Bool? ==> r.None?
  {
    match v
    case Str(s) => Some(Num(Finite(Utf16Length(s) as real)))
    case Arr(items) => Some(Num(Finite(|items| as real)))
    case Obj(ms) => Member(ms, "length")
    case _ => None
  }

  /** Concatenates converted array elements with `,`, stopping at the first
      element whose conversion threw, as `Array.prototype.join` does. */
  function JoinTexts(parts: seq<Result<string, Thrown>>): (r: Result<string, Thrown>)
    ensures r.Failure? <==> exists i :: 0 <= i < |parts| && parts[i].Failure?
  {
    if parts == [] then Success("")
    else if parts[0].Failure? then Failure(TypeError)
    else if |parts| == 1 then parts[0]
    else
      match JoinTexts(parts[1..])
      case Failure(e) => Failure(e)
      case Success(t) => Success(parts[0].value + "," + t)
  }

  /** `ToString(v)` for an array element inside `Array.prototype.join`, where
      `null` becomes the empty string. An object from `JSON.parse` has no
      callable `toString` or `valueOf` of its own; if it has a member named
      `toString`, OrdinaryToPrimitive finds nothing callable and throws. */
  function ElementText(conv: Conversions, v: Value): (r: Result<string, Thrown>)
    ensures r.Failure? ==> v.Arr? || v.Obj?
    ensures v.Str? ==> r == Success(v.s)
    decreases v
  {
    match v
    case Null => Success("")
    case Bool(b) => Success(if b then "true" else "false")
    case Num(n) => Success(conv.numberToString(n))
    case Str(s) => Success(s)
    case Arr(items) => JoinTexts(seq(|items|, i requires 0 <= i < |items| => ElementText(conv, items[i])))
    case Obj(ms) => if HasMember(ms, "toString") then Failure(TypeError) else Success("[object Object]")
  }

  /** `x > 0` in JavaScript, `None` standing for `undefined`: both sides go
      through ToPrimitive with hint number and then ToNumeric. */
  function GreaterThanZero(conv: Conversions, x: Option<Value>): (r: Result<bool, Thrown>)
    ensures r.Failure? ==> x.Some? && (x.value.Arr? || x.value.Obj?)
    ensures x.Some? && x.value.Num? ==> r == Success(x.value.n.Positive())
    ensures x.None? || x == Some(Null) ==> r == Success(false)
  {
    match x
    case None => Success(false)
    case Some(Null) => Success(false)
    case Some(Bool(b)) => Success(b)
    case Some(Num(n)) => Success(n.Positive())
    case Some(Str(s)) => Success(conv.toNumber(s).Positive())
    case Some(Arr(items)) =>
      (match ElementText(conv, Arr(items))
       case Failure(e) => Failure(e)
       case Success(t) => Success(conv.toNumber(t).Positive()))
    case Some(Obj(ms)) =>
      if HasMember(ms, "toString") then Failure(TypeError) else Success(false)
  }

  /** `doc[field]?.length > 0`: `Success(true)` when the field passes the
      descriptor check, `Success(false)` when it is reported as missing, and
      `Failure` when evaluating the test throws. */
  function FieldTest(conv: Conversions, doc: Value, field: string): (r: Result<bool, Thrown>)
  {
    match FieldOf(doc, field)
    case Failure(e) => Failure(e)
    case Success(None) => Success(false)
    case Success(Some(Null)) => Success(false)
    case Success(Some(v)) => GreaterThanZero(conv, LengthOf(v))
  }

  /** A string-valued field passes exactly when the string is non-empty. */
  lemma StringFieldTest(conv: Conversions, ms: seq<(string, Value)>, field: string, s: string)
    requires Member(ms, field) == Some(Str(s))
    ensures FieldTest(conv, Obj(ms), field) == Success(s != [])
  {
  }

  /** An array-valued field passes exactly when the array is non-empty,
      whatever its elements are: the test reads `length`, not the type. */
  lemma ArrayFieldTest(conv: Conversions, ms: seq<(string, Value)>, field: string, items: seq<Value>)
    requires Member(ms, field) == Some(Arr(items))
    ensures FieldTest(conv, Obj(ms), field) == Success(|items| > 0)
  {
  }

  /** A field holding an object is tested through that object's own `length`
      member; with no such member the field fails without throwing. */
  lemma ObjectFieldTest(conv: Conversions, ms: seq<(string, Value)>, field: string, ns: seq<(string, Value)>)
    requires Member(ms, field) == Some(Obj(ns))
    ensures FieldTest(conv, Obj(ms), field) == GreaterThanZero(conv, Member(ns, "length"))
    ensures Member(ns, "length").None? ==> FieldTest(conv, Obj(ms), field) == Success(false)
  {
  }

  /** A field holding an object passes exactly when that object's own
      `length` member is a positive number. */
  lemma ObjectLengthFieldTest(conv: Conversions, ms: seq<(string, Value)>, field: string,
                              ns: seq<(string, Value)>, n: Number)
    requires Member(ms, field) == Some(Obj(ns)) && Member(ns, "length") == Some(Num(n))
    ensures FieldTest(conv, Obj(ms), field) == Success(n.Positive())
  {
  }

  /** Absent, `null`, numeric and boolean fields all fail without throwing. */
  lemma ScalarFieldTest(conv: Conversions, ms: seq<(string, Value)>, field: string)
    requires Member(ms, field).None? || Member(ms, field).value.Null?
          || Member(ms, field).value.Num? || Member(ms, field).value.Bool?
    ensures FieldTest(conv, Obj(ms), field) == Success(false)
  {
  }

  /** A descriptor that is a string, array, number or boolean has none of the
      fields: every test fails without throwing. A `null` descriptor throws. */
  lemma NonObjectFieldTest(conv: Conversions, doc: Value, field: string)
    requires !doc.Obj?
    ensures FieldTest(conv, doc, field) == (if doc.Null? then Failure(TypeError) else Success(false))
  {
  }

  /** The test throws only for a `null` descriptor or for a field holding an
      object whose `length` member is an array or an object. */
  lemma FieldTestThrows(conv: Conversions, doc: Value, field: string)
    requires FieldTest(conv, doc, field).Failure?
    ensures doc.Null? || (doc.Obj? && Member(doc.members, field).Some? && Member(doc.members, field).value.Obj?)
    ensures doc.Obj? ==>
      var len := Member(Member(doc.members, field).value.members, "length");
      len.Some? && (len.value.Arr? || len.value.Obj?)
  {
  }
}
