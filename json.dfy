/**
 * An already-parsed JSON document and the field-tolerant decoding of one
 * struct field, as Go's encoding/json performs it when it fills a struct
 * whose fields are `string` or `int64`.
 */
module Json {
  import opened Wrappers

  /** A parsed JSON value. Number literals are split by the one distinction
      that matters to an `int64` target: integer syntax or not. */
  datatype Json =
    | JNull
    | JBool(b: bool)
    | JInt(num: int)                  // a number literal with neither fraction nor exponent
    | JFloat                          // a number literal with a fraction or an exponent
    | JString(str: string)
    | JArray(elems: seq<Json>)
    | JObject(fields: map<string, Json>)

  /** A request body: either a syntactically valid JSON document or bytes that are not. */
  datatype Body = Document(doc: Json) | NotJson

  const MinInt64: int := -0x8000_0000_0000_0000
  const MaxInt64: int := 0x7FFF_FFFF_FFFF_FFFF

  /** Go's `int64`. */
  newtype Int64 = x: int | -0x8000_0000_0000_0000 <= x <= 0x7FFF_FFFF_FFFF_FFFF

  /** A value a `string` field accepts (null leaves the field untouched). */
  predicate StringLike(v: Json) {
    v.JString? || v.JNull?
  }

  /** A value an `int64` field accepts (null leaves the field untouched). */
  predicate Int64Like(v: Json) {
    v.JNull? || (v.JInt? && MinInt64 <= v.num <= MaxInt64)
  }

  /** A `string` field under `key` can be filled from `fields`. */
  predicate StringFits(fields: map<string, Json>, key: string) {
    key !in fields || StringLike(fields[key])
  }

  /** An `int64` field under `key` can be filled from `fields`. */
  predicate Int64Fits(fields: map<string, Json>, key: string) {
    key !in fields || Int64Like(fields[key])
  }

  /** What a decode into a struct sees of the document: an object's members;
      a top-level null decodes to nothing at all (every field keeps its zero
      value); any other value cannot fill a struct. */
  function Members(body: Body): Option<map<string, Json>> {
    match body
    case NotJson => None
    case Document(JObject(fields)) => Some(fields)
    case Document(JNull) => Some(map[])
    case Document(_) => None
  }

  /** The reading of a string key that a field-tolerant decode promises:
      the string held there, or "" when the key is absent or null. */
  function TextAt(fields: map<string, Json>, key: string): string {
    if key in fields && fields[key].JString? then fields[key].str else ""
  }

  /** The reading of an integer key: the integer held there, or 0 when the
      key is absent or null. */
  function NumberAt(fields: map<string, Json>, key: string): int {
    if key in fields && fields[key].JInt? then fields[key].num else 0
  }

  /** Decodes one `string` field from its key. */
  function StringField(fields: map<string, Json>, key: string): (r: Option<string>)
    ensures r.Some? <==> StringFits(fields, key)
    ensures r.Some? ==> r.value == TextAt(fields, key)
  {
    if key !in fields then Some("")
    else match fields[key]
      case JString(s) => Some(s)
      case JNull => Some("")
      case _ => None
  }

  /** Decodes one `int64` field from its key; a non-integer literal or one
      outside the 64-bit range is a type error. */
  function Int64Field(fields: map<string, Json>, key: string): (r: Option<Int64>)
    ensures r.Some? <==> Int64Fits(fields, key)
    ensures r.Some? ==> r.value as int == NumberAt(fields, key)
  {
    if key !in fields then Some(0 as Int64)
    else match fields[key]
      case JInt(n) => if MinInt64 <= n <= MaxInt64 then Some(n as Int64) else None
      case JNull => Some(0 as Int64)
      case _ => None
  }
}
