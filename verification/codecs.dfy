/** The Qt codecs the core stores its metadata and configuration with: JSON
    values with the accessors `QJsonValue` offers, JSON text, and base64
    (section 4 of RFC 4648). */
module Codecs {
  import opened Base

  /** A JSON value. Numbers are doubles in Qt; `JNumber` keeps the value. */
  datatype Json =
    | JNull
    | JBool(b: bool)
    | JNumber(n: real)
    | JString(s: string)
    | JArray(items: seq<Json>)
    | JObject(members: map<string, Json>)

  /** `o.value(key).toString(default)`: the string stored under `key`, or
      `default` when the key is absent or holds no string. */
  function StringOr(o: map<string, Json>, key: string, default: string): (r: string)
    ensures key in o && o[key].JString? ==> r == o[key].s
    ensures !(key in o && o[key].JString?) ==> r == default
  {
    if key in o && o[key].JString? then o[key].s else default
  }

  const IntMin := -0x8000_0000
  const IntMax := 0x7FFF_FFFF

  /** `o.value(key).toInt(default)`: a number that is whole and fits an
      `int`, otherwise `default`. */
  function IntOr(o: map<string, Json>, key: string, default: int): (r: int)
    ensures (key in o && o[key].JNumber? && o[key].n == o[key].n.Floor as real
             && IntMin <= o[key].n.Floor <= IntMax) ==> r == o[key].n.Floor
    ensures !(key in o && o[key].JNumber?) ==> r == default
    ensures (key in o && o[key].JNumber?
             && !(o[key].n == o[key].n.Floor as real && IntMin <= o[key].n.Floor <= IntMax)) ==> r == default
  {
    if key in o && o[key].JNumber? && o[key].n == o[key].n.Floor as real
       && IntMin <= o[key].n.Floor <= IntMax
    then o[key].n.Floor
    else default
  }

  /** JSON text: `QJsonDocument(o).toJson()` and `QJsonDocument::fromJson`.
      Text that does not parse yields a value that is not an object. */
  datatype JsonText = JsonText(write: map<string, Json> -> Bytes, parse: Bytes -> Json)

  /** An object written out reads back as itself. */
  ghost predicate JsonTextLaws(j: JsonText) {
    forall o :: j.parse(j.write(o)) == JObject(o)
  }

  /** The JSON object held by a file's `contents` (`None` when the file
      could not be opened): `QJsonDocument::fromJson` followed by
      `isObject()` and `object()`. */
  function ObjectOf(contents: Option<Bytes>, json: JsonText): (r: Option<map<string, Json>>)
    ensures r.Some? <==> contents.Some? && json.parse(contents.value).JObject?
    ensures r.Some? ==> json.parse(contents.value) == JObject(r.value)
  {
    if contents.Some? && json.parse(contents.value).JObject? then Some(json.parse(contents.value).members)
    else None
  }

  /** An object written to a file that is read back whole is found again. */
  lemma ObjectOfWritten(json: JsonText, o: map<string, Json>)
    requires JsonTextLaws(json)
    ensures ObjectOf(Some(json.write(o)), json) == Some(o)
  {
  }

  /** `QByteArray::toBase64` and the lenient `QByteArray::fromBase64`, which
      never fails: malformed text still decodes to some bytes. */
  datatype Base64Ops = Base64Ops(encode: Bytes -> string, decode: string -> Bytes)

  ghost predicate Base64Laws(b: Base64Ops) {
    forall v :: b.decode(b.encode(v)) == v
  }

  type Base64 = b: Base64Ops | Base64Laws(b)
    witness Base64Ops(
      v => seq(|v|, i requires 0 <= i < |v| => v[i] as char),
      s => seq(|s|, i requires 0 <= i < |s| => (s[i] as int) % 256))
}
