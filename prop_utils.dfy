/**
 * extract_obj_curie: the object reference in a property payload, either at
 * the top level (`{"obj": ...}`) or inside the value (`{"value": {"obj": ...}}`).
 */
module PropUtils {
  import opened Wrappers
  import opened Json

  /** The nested `value.obj` of a payload, when `value` is a dict. */
  function NestedObj(entries: seq<(string, JsonValue)>): JsonValue {
    var value := Lookup(entries, "value");
    if value.JDict? then Lookup(value.entries, "obj") else JNull
  }

  /**
   * extract_obj_curie. A string top-level `obj` wins; otherwise a string
   * `obj` inside a dict `value`; anything else is None.
   */
  function ExtractObjCurie(payload: JsonValue): (r: Option<string>)
    ensures !payload.JDict? ==> r.None?
    ensures payload.JDict? && Lookup(payload.entries, "obj").JStr? ==> r == Some(Lookup(payload.entries, "obj").s)
    ensures payload.JDict? && !Lookup(payload.entries, "obj").JStr? ==>
      (r.Some? <==> Lookup(payload.entries, "value").JDict? && NestedObj(payload.entries).JStr?)
    ensures r.Some? ==>
      && payload.JDict?
      && (Lookup(payload.entries, "obj") == JStr(r.value) || NestedObj(payload.entries) == JStr(r.value))
  {
    if !payload.JDict? then None
    else
      var obj := Lookup(payload.entries, "obj");
      if obj.JStr? then Some(obj.s)
      else
        var value := Lookup(payload.entries, "value");
        if value.JDict? then
          var objValue := Lookup(value.entries, "obj");
          if objValue.JStr? then Some(objValue.s) else None
        else None
  }

  /** Both shapes at once: the top-level string is the one returned. */
  lemma TopLevelWins(top: string, nested: string)
    ensures ExtractObjCurie(JDict([("obj", JStr(top)), ("value", JDict([("obj", JStr(nested))]))])) == Some(top)
  {
  }

  /** The property-endpoint shape `{"name": ..., "value": {"obj": c}}` yields c. */
  lemma NestedShape(name: string, c: string)
    ensures ExtractObjCurie(JDict([("name", JStr(name)), ("value", JDict([("obj", JStr(c))]))])) == Some(c)
  {
    var entries := [("name", JStr(name)), ("value", JDict([("obj", JStr(c))]))];
    assert entries[1..][1..] == [];
    assert Lookup(entries[1..], "obj") == JNull;
    assert entries[0].0 != "value" && entries[1..][0].0 == "value";
    assert Lookup(entries, "value") == JDict([("obj", JStr(c))]);
  }
}
