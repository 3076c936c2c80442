/**
 * JSON values as trees. The text syntax of `JSON.stringify` and `JSON.parse`
 * is not modelled: stored text is represented by the value it spells.
 */
module JsonValues {
  import opened Wrappers

  datatype Json =
    | JNull
    | JBool(b: bool)
    | JNumber(n: int)
    | JString(s: string)
    | JArray(items: seq<Json>)
    | JObject(fields: seq<(string, Json)>)

  /** The value of `key` in an object's fields; `JSON.parse` keeps the last of duplicate keys. */
  function Field(fields: seq<(string, Json)>, key: string): (r: Option<Json>)
    ensures r.None? <==> forall i :: 0 <= i < |fields| ==> fields[i].0 != key
  {
    if |fields| == 0 then None
    else if fields[|fields| - 1].0 == key then Some(fields[|fields| - 1].1)
    else
      assert forall i :: 0 <= i < |fields| - 1 ==> fields[..|fields| - 1][i] == fields[i];
      Field(fields[..|fields| - 1], key)
  }

  /** A key with a defined value is written; an `undefined` one is left out. */
  function Optional(key: string, v: Option<Json>): (r: seq<(string, Json)>)
    ensures |r| <= 1 && (r == [] <==> v.None?)
    ensures v.Some? ==> r == [(key, v.value)]
  {
    match v
    case None => []
    case Some(j) => [(key, j)]
  }

  /** Looking up a key after an optional field of another key, or of the same one. */
  lemma FieldAfterOptional(fields: seq<(string, Json)>, key: string, v: Option<Json>, other: string)
    ensures other != key ==> Field(fields + Optional(key, v), other) == Field(fields, other)
    ensures v.Some? ==> Field(fields + Optional(key, v), key) == v
    ensures v.None? && Field(fields, key).None? ==> Field(fields + Optional(key, v), key).None?
  {
    if v.Some? {
      var f := fields + Optional(key, v);
      assert f[..|f| - 1] == fields;
    } else {
      assert fields + Optional(key, v) == fields;
    }
  }
}
