/** The serde data model as `serde_json` presents it: an already parsed JSON
    value, and the field-level decoding rules `#[derive(Deserialize)]` applies
    to it. Text-level JSON parsing and printing are not part of this model. */
module Json {
  import opened Wrappers
  import opened Primitives

  /** An `f64`, carried opaquely: no floating-point arithmetic is modelled. */
  datatype F64 = F64(bits: bv64)

  /** An IEEE 754 binary64 value is finite unless its 11 exponent bits are
      all set (infinities and NaNs). */
  predicate Finite(f: F64) {
    (f.bits >> 52) & 0x7FF != 0x7FF
  }

  /** How `serde_json` writes an `f64`: a JSON number when finite, and
      `null` for NaN and the infinities, which JSON cannot express. */
  function FromF64(f: F64): Value {
    if Finite(f) then Float(f) else Null
  }

  /** A parsed JSON value. Object keys are unique, so an object is a map. */
  datatype Value =
    | Null
    | Bool(b: bool)
    | Int(n: int)
    | Float(f: F64)
    | Str(s: string)
    | Array(items: seq<Value>)
    | Object(fields: map<string, Value>)

  /** Why a value did not decode (`serde::de::Error` as built by serde_json). */
  datatype DeError =
    | InvalidType(expected: string)
    | MissingField(field: string)
    | UnknownVariant(variant: string)
    | Custom(message: string)

  function AsString(v: Value): (r: Result<string, DeError>)
    ensures r.Success? <==> v.Str?
    ensures r.Success? ==> r.value == v.s
  {
    if v.Str? then Success(v.s) else Failure(InvalidType("a string"))
  }

  /** A `usize` accepts exactly the integers in its range. */
  function AsUsize(v: Value): (r: Result<usize, DeError>)
    ensures r.Success? <==> v.Int? && 0 <= v.n <= USIZE_MAX
    ensures r.Success? ==> r.value == v.n
  {
    if v.Int? && 0 <= v.n <= USIZE_MAX then Success(v.n) else Failure(InvalidType("usize"))
  }

  /** An `f64` accepts a floating-point literal. */
  function AsF64(v: Value): (r: Result<F64, DeError>)
    ensures r.Success? <==> v.Float?
  {
    if v.Float? then Success(v.f) else Failure(InvalidType("f64"))
  }

  predicate AllStrings(items: seq<Value>) {
    forall i | 0 <= i < |items| :: items[i].Str?
  }

  /** A `Vec<String>`: an array of strings, in order. */
  function AsStrings(v: Value): (r: Result<seq<string>, DeError>)
    ensures r.Success? <==> v.Array? && AllStrings(v.items)
    ensures r.Success? ==>
              && |r.value| == |v.items|
              && forall i | 0 <= i < |v.items| :: v.items[i] == Str(r.value[i])
  {
    if v.Array? && AllStrings(v.items) then
      Success(seq(|v.items|, i requires 0 <= i < |v.items| => v.items[i].s))
    else
      Failure(InvalidType("a sequence of strings"))
  }

  function FromStrings(xs: seq<string>): Value {
    Array(seq(|xs|, i requires 0 <= i < |xs| => Str(xs[i])))
  }

  lemma StringsRoundTrip(xs: seq<string>)
    ensures AsStrings(FromStrings(xs)) == Success(xs)
  {
    var v := FromStrings(xs);
    assert AllStrings(v.items);
    var ys := AsStrings(v).value;
    assert |ys| == |xs|;
    forall i | 0 <= i < |xs|
      ensures ys[i] == xs[i]
    {
      assert v.items[i] == Str(xs[i]);
    }
    assert ys == xs;
  }

  /** A field of non-`Option` type: missing is an error. */
  function Required<T>(fields: map<string, Value>, name: string, decode: Value -> Result<T, DeError>)
    : (r: Result<T, DeError>)
    ensures name !in fields ==> r == Failure(MissingField(name))
    ensures name in fields ==> r == decode(fields[name])
  {
    if name in fields then decode(fields[name]) else Failure(MissingField(name))
  }

  /** A field of type `Option<T>`: missing or `null` is `None`, anything else
      must decode as `T`. */
  function Optional<T>(fields: map<string, Value>, name: string, decode: Value -> Result<T, DeError>)
    : (r: Result<Option<T>, DeError>)
    ensures name !in fields || fields[name] == Null ==> r == Success(None)
    ensures name in fields && fields[name] != Null ==>
      (r.Success? <==> decode(fields[name]).Success?)
      && (r.Success? ==> r.value == Some(decode(fields[name]).value))
  {
    if name !in fields || fields[name] == Null then Success(None)
    else
      match decode(fields[name])
      case Success(x) => Success(Some(x))
      case Failure(e) => Failure(e)
  }

  /** How `Option<T>` serialises: `None` as `null`. */
  function FromOption<T>(o: Option<T>, encode: T -> Value): Value {
    match o
    case None => Null
    case Some(x) => encode(x)
  }
}
