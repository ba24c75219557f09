/**
 * An abstract JSON document standing for an nlohmann::json value after
 * parsing, with the lookups and the typed get<T>() conversions the source
 * uses. A conversion returns None where nlohmann throws a type_error.
 */
module Json {
  import opened Wrappers

  const TwoTo32: int := 0x1_0000_0000
  const TwoTo64: int := 0x1_0000_0000_0000_0000

  /**
   * Integers parsed from text are kept exactly; floating-point numbers are
   * kept as reals (binary rounding is not part of this model). Objects are
   * maps, as nlohmann's default object type is a std::map.
   */
  datatype Json =
    | JNull
    | JBool(b: bool)
    | JInt(i: int)
    | JFloat(f: real)
    | JString(s: string)
    | JArray(items: seq<Json>)
    | JObject(fields: map<string, Json>)

  /** json::contains(key): true only for an object that has the key. */
  predicate Contains(j: Json, key: string) {
    j.JObject? && key in j.fields
  }

  /** A present member whose value is not null (the source's usual guard). */
  predicate HasNonNull(j: Json, key: string) {
    Contains(j, key) && !j.fields[key].JNull?
  }

  function Member(j: Json, key: string): Json
    requires Contains(j, key)
  {
    j.fields[key]
  }

  /** Truncation toward zero, as a C++ floating-to-integer cast does. */
  function Truncate(x: real): (r: int)
    ensures x >= 0.0 ==> 0.0 <= r as real <= x && x < r as real + 1.0
    ensures x < 0.0 ==> x <= r as real <= 0.0 && r as real - 1.0 < x
  {
    if x >= 0.0 then x.Floor else -((-x).Floor)
  }

  /** Reduction modulo 2^32: conversion of any integer to std::uint32_t. */
  function WrapUint32(i: int): (r: nat)
    ensures r < TwoTo32
    ensures exists k: int :: i == r + k * TwoTo32
  {
    var r := i % TwoTo32;
    assert i == r + (i / TwoTo32) * TwoTo32;
    r
  }

  /** Conversion of any integer to a signed 64-bit integer (two's complement). */
  function WrapInt64(i: int): (r: int)
    ensures -TwoTo64 / 2 <= r < TwoTo64 / 2
    ensures -TwoTo64 / 2 <= i < TwoTo64 / 2 ==> r == i
  {
    var u := i % TwoTo64;
    if u < TwoTo64 / 2 then u else u - TwoTo64
  }

  /** get<std::string>(): only a string converts. */
  function AsString(j: Json): (r: Option<string>)
    ensures r.Some? <==> j.JString?
    ensures r.Some? ==> r.value == j.s
  {
    match j
    case JString(s) => Some(s)
    case _ => None
  }

  /** get<bool>(): only a boolean converts. */
  function AsBool(j: Json): (r: Option<bool>)
    ensures r.Some? <==> j.JBool?
    ensures r.Some? ==> r.value == j.b
  {
    match j
    case JBool(b) => Some(b)
    case _ => None
  }

  /**
   * get<std::uint32_t>(): any number converts with a C++ cast, and so does a
   * boolean (nlohmann's arithmetic conversion accepts booleans).
   */
  function AsUint32(j: Json): (r: Option<nat>)
    ensures r.Some? <==> (j.JInt? || j.JFloat? || j.JBool?)
    ensures r.Some? ==> r.value < TwoTo32
    ensures j.JInt? && 0 <= j.i < TwoTo32 ==> r == Some(j.i)
  {
    match j
    case JInt(i) => Some(WrapUint32(i))
    case JFloat(f) => Some(WrapUint32(Truncate(f)))
    case JBool(b) => Some(if b then 1 else 0)
    case _ => None
  }

  /** get<std::time_t>() (a 64-bit integer): numbers convert, booleans do not. */
  function AsInt64(j: Json): (r: Option<int>)
    ensures r.Some? <==> (j.JInt? || j.JFloat?)
    ensures j.JInt? && -TwoTo64 / 2 <= j.i < TwoTo64 / 2 ==> r == Some(j.i)
  {
    match j
    case JInt(i) => Some(WrapInt64(i))
    case JFloat(f) => Some(WrapInt64(Truncate(f)))
    case _ => None
  }

  /** get<double>(): numbers convert, booleans do not. */
  function AsDouble(j: Json): (r: Option<real>)
    ensures r.Some? <==> (j.JInt? || j.JFloat?)
    ensures j.JFloat? ==> r == Some(j.f)
  {
    match j
    case JInt(i) => Some(i as real)
    case JFloat(f) => Some(f)
    case _ => None
  }
}
