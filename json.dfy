/**
 * The Python value `orjson.loads` produces from a report: JSON's six kinds,
 * with objects as the ordered list of their members.
 */
module JsonValue {
  import opened Wrappers
  import opened Utf8

  datatype Json =
    | JNull
    | JBool(b: bool)
    | JInt(i: int)
    | JFloat(mantissa: int, exponent: int)
    | JString(s: Text)
    | JArray(items: seq<Json>)
    | JObject(members: seq<(Text, Json)>)

  /**
   * `obj[key]` on the dict built from `members`: when a key occurs more than
   * once the last member wins, as it does when a dict is filled in order;
   * None is Python's KeyError.
   */
  function Get(members: seq<(Text, Json)>, key: Text): (r: Option<Json>)
    ensures r.None? <==> forall i :: 0 <= i < |members| ==> members[i].0 != key
    ensures r.Some? ==>
      exists i :: 0 <= i < |members| && members[i] == (key, r.value) &&
        forall j :: i < j < |members| ==> members[j].0 != key
  {
    if |members| == 0 then None
    else if members[|members| - 1].0 == key then Some(members[|members| - 1].1)
    else Get(members[..|members| - 1], key)
  }

}
