/** The two checks main.py applies to each upstream reply before reading
    records from it: the accepted status codes (`_ok`) and the extraction of
    the record list from an envelope whose shape varies (`_unwrap_list`). */
module Envelope {
  import opened PyJson

  /** `_ok(r)`: the status codes accepted as success. */
  predicate Ok(status: int) {
    status == 200 || status == 201 || status == 202
  }

  /** The dict keys probed for a record list, in the order the loop tries them. */
  const EnvelopeKeys: seq<string> := ["data", "orders", "items", "results", "pedidos"]

  /** Whether `js.get(k)` is a list. */
  predicate ListAt(js: Json, k: string) {
    Get(js, k).JArr?
  }

  /** The value of the first key of `keys` under which `js` holds a list. */
  function FirstList(js: Json, keys: seq<string>): (r: Option<seq<Json>>)
    ensures r.None? <==> forall i :: 0 <= i < |keys| ==> !ListAt(js, keys[i])
    ensures r.Some? ==> exists i :: 0 <= i < |keys| && ListAt(js, keys[i])
                                 && r.value == Get(js, keys[i]).items
                                 && forall j :: 0 <= j < i ==> !ListAt(js, keys[j])
  {
    if keys == [] then None
    else if ListAt(js, keys[0]) then Some(Get(js, keys[0]).items)
    else
      var r := FirstList(js, keys[1..]);
      assert forall i :: 1 <= i < |keys| ==> keys[1..][i - 1] == keys[i];
      r
  }

  /** `_unwrap_list(js)`: `None` gives no records, a list is the record list,
      a dict gives the first list found under `EnvelopeKeys` or else is itself
      the one record, and any other value gives no records. It never fails. */
  function UnwrapList(js: Json): (r: seq<Json>)
    ensures js.JNull? ==> r == []
    ensures js.JArr? ==> r == js.items
    ensures js.JObj? && FirstList(js, EnvelopeKeys).None? ==> r == [js]
    ensures js.JObj? && FirstList(js, EnvelopeKeys).Some? ==> r == FirstList(js, EnvelopeKeys).value
    ensures js.JBool? || js.JInt? || js.JStr? ==> r == []
  {
    match js
    case JNull => []
    case JArr(a) => a
    case JObj(_) =>
      (match FirstList(js, EnvelopeKeys)
       case Some(l) => l
       case None => [js])
    case _ => []
  }

  /** A dict that holds a list under `k`, and under no earlier key of
      `EnvelopeKeys`, unwraps to that list: e.g. `{"data": [...]}` gives the
      inner list, whatever else the dict holds under later keys. */
  lemma {:induction false} UnwrapFirstKey(js: Json, i: nat)
    requires js.JObj? && i < |EnvelopeKeys| && ListAt(js, EnvelopeKeys[i])
    requires forall j :: 0 <= j < i ==> !ListAt(js, EnvelopeKeys[j])
    ensures UnwrapList(js) == Get(js, EnvelopeKeys[i]).items
  {
    var r := FirstList(js, EnvelopeKeys);
    var k :| 0 <= k < |EnvelopeKeys| && ListAt(js, EnvelopeKeys[k])
             && r.value == Get(js, EnvelopeKeys[k]).items
             && forall j :: 0 <= j < k ==> !ListAt(js, EnvelopeKeys[j]);
    assert k == i;
  }

  /** A dict with a list under none of `EnvelopeKeys` is a single record. */
  lemma UnwrapBareObject(js: Json)
    requires js.JObj? && forall i :: 0 <= i < |EnvelopeKeys| ==> !ListAt(js, EnvelopeKeys[i])
    ensures UnwrapList(js) == [js]
  {
  }

  /** `{"data": l}` unwraps to `l`, as extracting the inner list by hand does. */
  lemma UnwrapDataEnvelope(l: seq<Json>)
    ensures UnwrapList(JObj(map["data" := JArr(l)])) == l
  {
    UnwrapFirstKey(JObj(map["data" := JArr(l)]), 0);
  }
}
