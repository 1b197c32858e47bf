/**
 * Decoded JSON values as the client sees them. Python's None and JSON null are
 * the same value (JNull); a dict keeps its entries in insertion order.
 */
module Json {
  import opened Wrappers

  datatype JsonValue =
    | JNull
    | JBool(b: bool)
    | JInt(i: int)
    | JStr(s: string)
    | JList(items: seq<JsonValue>)
    | JDict(entries: seq<(string, JsonValue)>)

  /** Python truthiness: None, False, 0, "", [] and {} are false. */
  predicate Truthy(v: JsonValue) {
    match v
    case JNull => false
    case JBool(b) => b
    case JInt(i) => i != 0
    case JStr(s) => s != []
    case JList(items) => items != []
    case JDict(entries) => entries != []
  }

  /** d.get(key) on a dict: the value stored under key, or None when it is missing. */
  function Lookup(entries: seq<(string, JsonValue)>, key: string): (r: JsonValue)
    ensures (forall i :: 0 <= i < |entries| ==> entries[i].0 != key) ==> r == JNull
    ensures r != JNull ==> exists i :: 0 <= i < |entries| && entries[i] == (key, r)
  {
    if entries == [] then JNull
    else if entries[0].0 == key then entries[0].1
    else
      var r := Lookup(entries[1..], key);
      assert r != JNull ==> exists i :: 1 <= i < |entries| && entries[i] == (key, r);
      r
  }

  /** Python's `a or b` on two values. */
  function Or(a: JsonValue, b: JsonValue): JsonValue {
    if Truthy(a) then a else b
  }
}
